/**
 * The catalog text parser of lib/sku-parser.ts.
 *
 * Tab-delimited text becomes an ordered list of catalogs, one per folder
 * path, each holding `{url, filename}` records in the order they were read.
 * The helpers (sanitising, path splitting, URL detection, Drive URL
 * rewriting) are functions; `ParseSkuFile` is the source's `for` loop over
 * the lines, proved equal to the fold `ParseLines`, and the lemmas at the
 * end state what a line does to the parse state.
 */
module SkuParser {
  import opened Wrappers
  import opened Text

  const DefaultRoot := "katalog"

  datatype CatalogFile = CatalogFile(url: string, filename: string)

  datatype Catalog = Catalog(name: string, path: string, files: seq<CatalogFile>)

  /** `new URL(url).pathname`, or `None` where the URL constructor throws.
      The WHATWG URL parser itself is not part of this model. */
  type UrlPathname = string -> Option<string>

  // ------------------------------------------------------------ sanitising

  /** Characters `sanitizeFolderPath` deletes: `? % * : | " < >`. */
  predicate FolderBadChar(c: char) {
    c == '?' || c == '%' || c == '*' || c == ':' || c == '|' || c == '"' || c == '<' || c == '>'
  }

  /** Characters a sanitised folder path can hold: no deleted character and no backslash. */
  predicate FolderChar(c: char) {
    !FolderBadChar(c) && c != '\\'
  }

  /** Characters `sanitizeFilename` deletes: those and the two slashes. */
  predicate FileBadChar(c: char) {
    c == '\\' || c == '/' || FolderBadChar(c)
  }

  /** `replace(/\\/g, "/")`. */
  function SlashesForBackslashes(s: string): (r: string)
    ensures '\\' !in r
  {
    seq(|s|, i requires 0 <= i < |s| => if s[i] == '\\' then '/' else s[i])
  }

  /** A path without backslashes is left alone. */
  lemma NoBackslashes(s: string)
    requires '\\' !in s
    ensures SlashesForBackslashes(s) == s
  {
  }

  /** `replace(/^\.*\//, "")`: a leading run of dots followed by a slash is removed. */
  function StripDotSlashPrefix(s: string): (r: string)
    ensures |r| <= |s| && r == s[|s| - |r|..]
  {
    var rest := DropLeading(s, '.');
    if rest != [] && rest[0] == '/' then rest[1..] else s
  }

  /** `sanitizeFolderPath`: backslashes become slashes, a leading `./` (any number of
      dots) goes, `..` pairs are deleted, slash runs are collapsed, the characters
      `? % * : | " < >` are deleted, and the result is trimmed. */
  function SanitizeFolderPath(path: string): (r: string)
    ensures forall c :: c in r ==> FolderChar(c)
    ensures NoEdgeSpace(r)
  {
    var a := SlashesForBackslashes(path);
    var b := StripDotSlashPrefix(a);
    var c := ReplaceAll(b, "..", "");
    var d := CollapseSlashes(c);
    var e := RemoveChars(d, FolderBadChar);
    assert forall x :: x in b ==> x in a;
    ReplaceAllChars(b, "..", "");
    CollapseSlashesChars(c);
    RemoveCharsChars(d, FolderBadChar);
    TrimChars(e);
    Trim(e)
  }

  /** A folder name that every stage of `sanitizeFolderPath` leaves alone, here one made
      of ASCII letters and digits. */
  predicate PlainSegment(x: string) {
    x != [] && forall i :: 0 <= i < |x| ==> IsAsciiAlnum(x[i])
  }

  /** The characters of a plain name are none of the ones the sanitiser treats specially. */
  lemma PlainSegmentChars(x: string)
    requires PlainSegment(x)
    ensures forall c :: c in x ==> !FolderBadChar(c) && c != '.' && c != '/' && c != '\\'
    ensures !IsSpace(x[0]) && !IsSpace(x[|x| - 1])
  {
  }

  /** Plain names on both sides leave nothing for trimming to remove. */
  lemma PlainSegmentEdges(x: string, m: string, y: string)
    requires PlainSegment(x) && PlainSegment(y)
    ensures Trim(x + m + y) == x + m + y
  {
    var r := x + m + y;
    assert r[0] == x[0] && r[|r| - 1] == y[|y| - 1];
    PlainSegmentChars(x);
    PlainSegmentChars(y);
    TrimNoop(r);
  }

  /** Plain names around a middle without backslashes pass the first two stages. */
  lemma PlainJoinStart(x: string, m: string, y: string)
    requires PlainSegment(x) && PlainSegment(y) && '\\' !in m
    ensures StripDotSlashPrefix(SlashesForBackslashes(x + m + y)) == x + m + y
  {
    PlainSegmentChars(x);
    PlainSegmentChars(y);
    assert (x + m + y)[0] == x[0];
    StripDotSlashNoop(x + m + y);
  }

  /** A path that starts with neither a dot nor a slash keeps its start. */
  lemma StripDotSlashNoop(s: string)
    requires s != [] && s[0] != '.' && s[0] != '/' && '\\' !in s
    ensures StripDotSlashPrefix(SlashesForBackslashes(s)) == s
  {
    NoBackslashes(s);
  }

  /** The five stages of `sanitizeFolderPath`, in order. */
  lemma SanitizeFolderPathStages(s: string)
    ensures SanitizeFolderPath(s)
         == Trim(RemoveChars(CollapseSlashes(ReplaceAll(StripDotSlashPrefix(SlashesForBackslashes(s)), "..", "")), FolderBadChar))
  {
  }

  /** Slash runs are collapsed before the character filter, so deleting a character
      between two slashes leaves a double slash behind. */
  lemma SanitizeFolderPathDoubleSlash(x: string, y: string)
    requires PlainSegment(x) && PlainSegment(y)
    ensures SanitizeFolderPath(x + "/?/" + y) == x + "//" + y
  {
    var s := x + "/?/" + y;
    var r := x + "//" + y;
    calc {
      SanitizeFolderPath(s);
    == { SanitizeFolderPathStages(s); }
      Trim(RemoveChars(CollapseSlashes(ReplaceAll(StripDotSlashPrefix(SlashesForBackslashes(s)), "..", "")), FolderBadChar));
    == { DoubleSlashEarlyStages(x, y); }
      Trim(RemoveChars(s, FolderBadChar));
    == { PlainSegmentChars(x); PlainSegmentChars(y);
         assert s == (x + "/") + ['?'] + ("/" + y);
         RemoveCharsOne(x + "/", '?', "/" + y, FolderBadChar);
         assert (x + "/") + ("/" + y) == r; }
      Trim(r);
    == { PlainSegmentEdges(x, "//", y); }
      r;
    }
  }

  lemma DoubleSlashEarlyStages(x: string, y: string)
    requires PlainSegment(x) && PlainSegment(y)
    ensures var s := x + "/?/" + y;
      CollapseSlashes(ReplaceAll(StripDotSlashPrefix(SlashesForBackslashes(s)), "..", "")) == s
  {
    var s := x + "/?/" + y;
    calc {
      CollapseSlashes(ReplaceAll(StripDotSlashPrefix(SlashesForBackslashes(s)), "..", ""));
    == { PlainJoinStart(x, "/?/", y); }
      CollapseSlashes(ReplaceAll(s, "..", ""));
    == { PlainSegmentChars(x); PlainSegmentChars(y); ReplaceAllAbsent(s, "..", ""); }
      CollapseSlashes(s);
    == { PlainSegmentChars(x); PlainSegmentChars(y); NoRepeatJoin(x, "/?/", y, '/'); CollapseSlashesNoop(s); }
      s;
    }
  }

  /** The leading slash is stripped before the character filter, so a path that
      starts with a filtered character followed by a slash comes out rooted. */
  lemma SanitizeFolderPathLeadingSlash(y: string)
    requires PlainSegment(y)
    ensures SanitizeFolderPath("?/" + y) == "/" + y
  {
    var s := "?/" + y;
    calc {
      SanitizeFolderPath(s);
    == { SanitizeFolderPathStages(s); }
      Trim(RemoveChars(CollapseSlashes(ReplaceAll(StripDotSlashPrefix(SlashesForBackslashes(s)), "..", "")), FolderBadChar));
    == { LeadingSlashEarlyStages(y); }
      Trim(RemoveChars(s, FolderBadChar));
    == { LeadingSlashFilter(y); }
      Trim("/" + y);
    == { PlainSegmentChars(y); TrimNoop("/" + y); }
      "/" + y;
    }
  }

  lemma LeadingSlashFilter(y: string)
    requires PlainSegment(y)
    ensures RemoveChars("?/" + y, FolderBadChar) == "/" + y
  {
    PlainSegmentChars(y);
    assert "?/" + y == [] + ['?'] + ("/" + y);
    RemoveCharsOne([], '?', "/" + y, FolderBadChar);
  }

  lemma LeadingSlashEarlyStages(y: string)
    requires PlainSegment(y)
    ensures var s := "?/" + y;
      CollapseSlashes(ReplaceAll(StripDotSlashPrefix(SlashesForBackslashes(s)), "..", "")) == s
  {
    var s := "?/" + y;
    PlainSegmentChars(y);
    StripDotSlashNoop(s);
    ReplaceAllAbsent(s, "..", "");
    NoRepeatJoin("?", "/", y, '/');
    assert "?" + "/" + y == s;
    CollapseSlashesNoop(s);
  }

  /** `..` is deleted before the character filter, so a colon between two dots
      leaves a parent-folder step `..` in the sanitised path. */
  lemma SanitizeFolderPathKeepsDots(x: string, y: string)
    requires PlainSegment(x) && PlainSegment(y)
    ensures SanitizeFolderPath(x + "/.:./" + y) == x + "/../" + y
  {
    var s := x + "/.:./" + y;
    var r := x + "/../" + y;
    calc {
      SanitizeFolderPath(s);
    == { SanitizeFolderPathStages(s); }
      Trim(RemoveChars(CollapseSlashes(ReplaceAll(StripDotSlashPrefix(SlashesForBackslashes(s)), "..", "")), FolderBadChar));
    == { KeepsDotsEarlyStages(x, y); }
      Trim(RemoveChars(s, FolderBadChar));
    == { PlainSegmentChars(x); PlainSegmentChars(y);
         assert s == (x + "/.") + [':'] + ("./" + y);
         RemoveCharsOne(x + "/.", ':', "./" + y, FolderBadChar);
         assert (x + "/.") + ("./" + y) == r; }
      Trim(r);
    == { PlainSegmentEdges(x, "/../", y); }
      r;
    }
  }

  lemma KeepsDotsEarlyStages(x: string, y: string)
    requires PlainSegment(x) && PlainSegment(y)
    ensures var s := x + "/.:./" + y;
      CollapseSlashes(ReplaceAll(StripDotSlashPrefix(SlashesForBackslashes(s)), "..", "")) == s
  {
    var s := x + "/.:./" + y;
    calc {
      CollapseSlashes(ReplaceAll(StripDotSlashPrefix(SlashesForBackslashes(s)), "..", ""));
    == { PlainJoinStart(x, "/.:./", y); }
      CollapseSlashes(ReplaceAll(s, "..", ""));
    == { PlainSegmentChars(x); PlainSegmentChars(y); KeepsDotsReplace(x, y); }
      CollapseSlashes(s);
    == { PlainSegmentChars(x); PlainSegmentChars(y); NoRepeatJoin(x, "/.:./", y, '/'); CollapseSlashesNoop(s); }
      s;
    }
  }

  lemma KeepsDotsReplace(x: string, y: string)
    requires PlainSegment(x) && PlainSegment(y)
    ensures ReplaceAll(x + "/.:./" + y, "..", "") == x + "/.:./" + y
  {
    var t := ".:./" + y;
    PlainSegmentChars(x);
    assert x + "/.:./" + y == (x + "/") + t;
    ReplaceAllSkip(x + "/", t, "..", "");
    KeepsDotsReplaceTail(y);
  }

  lemma KeepsDotsReplaceTail(y: string)
    requires PlainSegment(y)
    ensures ReplaceAll(".:./" + y, "..", "") == ".:./" + y
  {
    var t3 := "/" + y;
    var t2 := "." + t3;
    var t1 := ":" + t2;
    var t0 := "." + t1;
    PlainSegmentChars(y);
    assert '.' !in t3;
    ReplaceAllAbsent(t3, "..", "");
    assert t2[1] == '/' && t2[1..] == t3;
    assert ReplaceAll(t2, "..", "") == t2;
    assert t1[0] == ':' && t1[1..] == t2;
    assert ReplaceAll(t1, "..", "") == t1;
    assert t0[1] == ':' && t0[1..] == t1;
    assert t0 == ".:./" + y;
  }

  /** `sanitizeFilename`: the characters `\ / ? % * : | " < >` are deleted, every run
      of white space becomes one space, and the result is trimmed. */
  function SanitizeFilename(name: string): (r: string)
    ensures forall c :: c in r ==> !FileBadChar(c)
    ensures NoEdgeSpace(r)
    ensures SingleSpaced(r)
  {
    var a := RemoveChars(name, FileBadChar);
    var b := CollapseSpaces(a);
    CollapseRunSingle(a, false);
    CollapseRunChars(a, false);
    TrimChars(b);
    TrimSingleSpaced(b);
    Trim(b)
  }

  /** The only white space is the plain space, and never two in a row. */
  predicate SingleSpaced(s: string)
    decreases |s|
  {
    s == [] || ((IsSpace(s[0]) ==> s[0] == ' ' && (|s| > 1 ==> !IsSpace(s[1]))) && SingleSpaced(s[1..]))
  }

  /** The collapsing scan leaves single spaces, and none at the start of a run it continues. */
  lemma {:induction false} CollapseRunSingle(s: string, inRun: bool)
    ensures SingleSpaced(CollapseRun(s, inRun))
    ensures inRun ==> CollapseRun(s, inRun) == [] || !IsSpace(CollapseRun(s, inRun)[0])
    decreases |s|
  {
    if s != [] {
      var rest := CollapseRun(s[1..], IsSpace(s[0]));
      CollapseRunSingle(s[1..], IsSpace(s[0]));
      if IsSpace(s[0]) && inRun {
        assert CollapseRun(s, inRun) == rest;
      } else if IsSpace(s[0]) {
        assert (" " + rest)[1..] == rest;
      } else {
        assert ([s[0]] + rest)[1..] == rest;
      }
    }
  }

  lemma {:induction false} SingleSpacedDrop(s: string, k: nat)
    requires SingleSpaced(s) && k <= |s|
    ensures SingleSpaced(s[k..])
    decreases k
  {
    if k > 0 {
      SingleSpacedDrop(s[1..], k - 1);
      assert s[1..][k - 1..] == s[k..];
    }
  }

  lemma {:induction false} SingleSpacedTake(s: string, n: nat)
    requires SingleSpaced(s) && n <= |s|
    ensures SingleSpaced(s[..n])
    decreases n
  {
    if n > 0 {
      SingleSpacedTake(s[1..], n - 1);
      assert s[..n][1..] == s[1..][..n - 1];
    }
  }

  lemma TrimSingleSpaced(s: string)
    requires SingleSpaced(s)
    ensures SingleSpaced(Trim(s))
  {
    var t := TrimStart(s);
    SingleSpacedDrop(s, LeadingSpaces(s));
    SingleSpacedTake(t, |t| - TrailingSpaces(t));
  }

  /** Collapsing white space that is already single changes nothing. */
  lemma {:induction false} CollapseRunNoop(s: string, inRun: bool)
    requires SingleSpaced(s)
    requires inRun ==> s == [] || !IsSpace(s[0])
    ensures CollapseRun(s, inRun) == s
    decreases |s|
  {
    if s != [] {
      CollapseRunNoop(s[1..], IsSpace(s[0]));
    }
  }

  /** Sanitising a file name twice is the same as sanitising it once. */
  lemma SanitizeFilenameIdempotent(name: string)
    ensures SanitizeFilename(SanitizeFilename(name)) == SanitizeFilename(name)
  {
    var r := SanitizeFilename(name);
    RemoveCharsNoop(r, FileBadChar);
    CollapseRunNoop(r, false);
    TrimNoop(r);
  }

  // ---------------------------------------------------------- path splitting

  predicate IsAsciiAlnum(c: char) {
    'a' <= c <= 'z' || 'A' <= c <= 'Z' || '0' <= c <= '9'
  }

  /** `seg` ends with a dot followed by exactly `n` letters or digits. */
  predicate ExtensionOfLength(seg: string, n: nat) {
    n < |seg| && seg[|seg| - n - 1] == '.' && forall k :: |seg| - n <= k < |seg| ==> IsAsciiAlnum(seg[k])
  }

  /** `/\.[a-z0-9]{2,4}$/i.test(seg)`. */
  predicate HasFileExtension(seg: string) {
    ExtensionOfLength(seg, 2) || ExtensionOfLength(seg, 3) || ExtensionOfLength(seg, 4)
  }

  datatype SplitResult = SplitResult(folderPath: string, explicitFilename: string)

  /** `splitPath`: the sanitised hint is the folder path, unless its last non-empty
      segment looks like a file name, which is then split off as the explicit name. */
  function SplitPath(input: string): (r: SplitResult)
    ensures r.folderPath != ""
    ensures forall c :: c in r.folderPath ==> FolderChar(c)
    ensures forall c :: c in r.explicitFilename ==> !FileBadChar(c)
    ensures NoEdgeSpace(r.explicitFilename)
  {
    SplitCleaned(SanitizeFolderPath(input))
  }

  /** The explicit file name `splitPath` returns is already sanitised. */
  lemma SplitPathIsSanitized(input: string)
    ensures SanitizeFilename(SplitPath(input).explicitFilename) == SplitPath(input).explicitFilename
  {
    SplitCleanedIsSanitized(SanitizeFolderPath(input));
  }

  lemma SplitCleanedIsSanitized(cleaned: string)
    requires forall c :: c in cleaned ==> FolderChar(c)
    ensures SanitizeFilename(SplitCleaned(cleaned).explicitFilename) == SplitCleaned(cleaned).explicitFilename
  {
    var parts := Segments(cleaned);
    if parts != [] && HasFileExtension(parts[|parts| - 1]) {
      SanitizeFilenameIdempotent(parts[|parts| - 1]);
    } else {
      SanitizeFilenameEmpty();
    }
  }

  lemma SanitizeFilenameEmpty()
    ensures SanitizeFilename("") == ""
  {
    assert RemoveChars("", FileBadChar) == "";
  }

  /** The body of `splitPath` once the hint is sanitised. */
  function SplitCleaned(cleaned: string): (r: SplitResult)
    requires forall c :: c in cleaned ==> FolderChar(c)
    ensures r.folderPath != ""
    ensures forall c :: c in r.folderPath ==> FolderChar(c)
    ensures forall c :: c in r.explicitFilename ==> !FileBadChar(c)
    ensures NoEdgeSpace(r.explicitFilename)
  {
    var parts := Segments(cleaned);
    DefaultRootIsFolder();
    if parts == [] then SplitResult(DefaultRoot, "")
    else if HasFileExtension(parts[|parts| - 1]) then SplitOffFile(cleaned, parts)
    else SplitResult(if cleaned == "" then DefaultRoot else cleaned, "")
  }

  /** The `parts.pop()` branch: the last segment is the file, the rest the folder. */
  function SplitOffFile(cleaned: string, parts: seq<string>): (r: SplitResult)
    requires forall c :: c in cleaned ==> FolderChar(c)
    requires parts == Segments(cleaned) && parts != []
    ensures r.folderPath != ""
    ensures forall c :: c in r.folderPath ==> FolderChar(c)
    ensures forall c :: c in r.explicitFilename ==> !FileBadChar(c)
    ensures NoEdgeSpace(r.explicitFilename)
  {
    SegmentsChars(cleaned);
    SplitResult(FolderBefore(cleaned, parts), SanitizeFilename(parts[|parts| - 1]))
  }

  lemma DefaultRootIsFolder()
    ensures DefaultRoot != "" && forall c :: c in DefaultRoot ==> FolderChar(c)
  {
  }

  /** `parts.pop(); parts.join("/") || DEFAULT_ROOT`: the folder left once the file segment goes. */
  function FolderBefore(cleaned: string, parts: seq<string>): (r: string)
    requires parts != []
    requires forall c :: c in cleaned ==> FolderChar(c)
    requires forall i, c :: 0 <= i < |parts| && c in parts[i] ==> c in cleaned
    ensures r != ""
    ensures forall c :: c in r ==> FolderChar(c)
  {
    var init := parts[..|parts| - 1];
    var folder := Join(init, "/");
    assert forall i, c :: 0 <= i < |init| && c in init[i] ==> c in cleaned by {
      forall i, c | 0 <= i < |init| && c in init[i] ensures c in cleaned {
        assert init[i] == parts[i];
      }
    }
    FolderPartsClean(cleaned, init);
    if folder == "" then DefaultRoot else folder
  }

  /** `path.split("/").filter(Boolean)`: the non-empty segments of a path. */
  function Segments(path: string): (parts: seq<string>)
    ensures forall i :: 0 <= i < |parts| ==> parts[i] != "" && '/' !in parts[i]
  {
    var pieces := Split(path, '/');
    var parts := NonEmpty(pieces);
    NonEmptyIn(pieces);
    assert forall i :: 0 <= i < |parts| ==> exists j :: 0 <= j < |pieces| && parts[i] == pieces[j];
    parts
  }

  /** The segments hold only characters of the path. */
  lemma SegmentsChars(path: string)
    ensures forall i, c :: 0 <= i < |Segments(path)| && c in Segments(path)[i] ==> c in path
  {
    var pieces := Split(path, '/');
    NonEmptyIn(pieces);
    SplitChars(path, '/');
    forall i, c | 0 <= i < |Segments(path)| && c in Segments(path)[i] ensures c in path {
      var j :| 0 <= j < |pieces| && Segments(path)[i] == pieces[j];
    }
  }

  /** Segments taken from a sanitised folder path join back into one. */
  lemma FolderPartsClean(cleaned: string, parts: seq<string>)
    requires forall c :: c in cleaned ==> FolderChar(c)
    requires forall i, c :: 0 <= i < |parts| && c in parts[i] ==> c in cleaned
    ensures forall c :: c in Join(parts, "/") ==> FolderChar(c)
  {
    JoinAvoids(parts, "/", c => !FolderChar(c));
  }

  /** The segments of joined separator-free segments are those segments. */
  lemma SegmentsJoin(parts: seq<string>)
    requires forall i :: 0 <= i < |parts| ==> parts[i] != "" && '/' !in parts[i]
    ensures Segments(Join(parts, "/")) == parts
  {
    if parts == [] {
      assert Split("", '/') == [""];
    } else {
      SplitJoin(parts, '/');
      NonEmptyNoop(parts);
    }
  }

  /** Sanitising keeps every character it does not delete and that is not white space. */
  lemma SanitizeFilenameKeeps(name: string, c: char)
    requires c in name && !FileBadChar(c) && !IsSpace(c)
    ensures c in SanitizeFilename(name)
  {
    var a := RemoveChars(name, FileBadChar);
    RemoveCharsKeeps(name, FileBadChar, c);
    CollapseRunKeeps(a, false, c);
    TrimKeeps(CollapseSpaces(a), c);
  }

  /** What `splitPath` does with the segments of the sanitised hint: a last segment
      with a file extension becomes the explicit file name and the folder is the
      segments before it; otherwise the folder is the whole sanitised hint. */
  lemma SplitPathShape(input: string)
    ensures var cleaned := SanitizeFolderPath(input);
      var parts := Segments(cleaned);
      var r := SplitPath(input);
      && (r.explicitFilename != "" <==> parts != [] && HasFileExtension(parts[|parts| - 1]))
      && (r.explicitFilename != "" ==>
            && r.explicitFilename == SanitizeFilename(parts[|parts| - 1])
            && (|parts| == 1 ==> r.folderPath == DefaultRoot)
            && (|parts| > 1 ==> Segments(r.folderPath) == parts[..|parts| - 1]))
      && (r.explicitFilename == "" ==> r.folderPath == if parts == [] then DefaultRoot else cleaned)
  {
    SplitCleanedShape(SanitizeFolderPath(input));
  }

  lemma SplitCleanedShape(cleaned: string)
    requires forall c :: c in cleaned ==> FolderChar(c)
    ensures var parts := Segments(cleaned);
      var r := SplitCleaned(cleaned);
      && (r.explicitFilename != "" <==> parts != [] && HasFileExtension(parts[|parts| - 1]))
      && (r.explicitFilename != "" ==>
            && r.explicitFilename == SanitizeFilename(parts[|parts| - 1])
            && (|parts| == 1 ==> r.folderPath == DefaultRoot)
            && (|parts| > 1 ==> Segments(r.folderPath) == parts[..|parts| - 1]))
      && (r.explicitFilename == "" ==> r.folderPath == if parts == [] then DefaultRoot else cleaned)
  {
    var parts := Segments(cleaned);
    if parts != [] && HasFileExtension(parts[|parts| - 1]) {
      SplitOffFileShape(cleaned, parts);
    } else if parts != [] {
      assert cleaned != "" by {
        assert Split("", '/') == [""];
      }
    }
  }

  lemma SplitOffFileShape(cleaned: string, parts: seq<string>)
    requires forall c :: c in cleaned ==> FolderChar(c)
    requires parts == Segments(cleaned) && parts != [] && HasFileExtension(parts[|parts| - 1])
    ensures var r := SplitOffFile(cleaned, parts);
      && r.explicitFilename != ""
      && r.explicitFilename == SanitizeFilename(parts[|parts| - 1])
      && (|parts| == 1 ==> r.folderPath == DefaultRoot)
      && (|parts| > 1 ==> Segments(r.folderPath) == parts[..|parts| - 1])
  {
    var last := parts[|parts| - 1];
    var c := last[|last| - 1];
    assert IsAsciiAlnum(c);
    SanitizeFilenameKeeps(last, c);
    if |parts| > 1 {
      SegmentsJoin(parts[..|parts| - 1]);
      assert Split("", '/') == [""];
    }
  }

  // ------------------------------------------------------- URL recognition

  /** `isLikelyUrl`: starts with `http://` or `https://`, or mentions `drive.google.com`, ignoring case. */
  predicate IsLikelyUrl(value: string) {
    StartsWithIgnoreCase(value, "http://") || StartsWithIgnoreCase(value, "https://")
    || ContainsIgnoreCase(value, "drive.google.com")
  }

  /** Where `URL_REGEX` (`/(https?:\/\/[^\s]+)/i`) can start: a scheme followed by a non-space. */
  predicate UrlStartsAt(s: string, p: nat) {
    p < |s| &&
    ((StartsWithIgnoreCase(s[p..], "https://") && p + 8 < |s| && !IsSpace(s[p + 8]))
     || (StartsWithIgnoreCase(s[p..], "http://") && p + 7 < |s| && !IsSpace(s[p + 7])))
  }

  /** The leftmost match of `URL_REGEX` at or after `from`: from its start up to the next white space. */
  function UrlInLineFrom(s: string, from: nat): (r: Option<string>)
    decreases |s| - from
    ensures r.Some? ==> r.value != [] && forall c :: c in r.value ==> !IsSpace(c)
    ensures r.Some? ==> StartsWithIgnoreCase(r.value, "http://") || StartsWithIgnoreCase(r.value, "https://")
  {
    if from >= |s| then None
    else if UrlStartsAt(s, from) then Some(UrlAt(s, from))
    else UrlInLineFrom(s, from + 1)
  }

  /** The match of `URL_REGEX` that starts at `p`: the run of non-space characters there. */
  function UrlAt(s: string, p: nat): (u: string)
    requires UrlStartsAt(s, p)
    ensures u != [] && forall c :: c in u ==> !IsSpace(c)
    ensures StartsWithIgnoreCase(u, "http://") || StartsWithIgnoreCase(u, "https://")
  {
    var scheme := if StartsWithIgnoreCase(s[p..], "https://") && p + 8 < |s| && !IsSpace(s[p + 8])
                  then "https://" else "http://";
    SchemeRun(s, p, scheme);
    var n := Run(s, p, NonSpace);
    RunNoSpace(s, p, n);
    assert s[p..p + n] == s[p..][..n];
    StartsWithIgnoreCaseTake(s[p..], scheme, n);
    s[p..p + n]
  }

  /** The scheme and the character after it are all non-space, so the run covers them. */
  lemma SchemeRun(s: string, p: nat, scheme: string)
    requires p + |scheme| < |s| && StartsWithIgnoreCase(s[p..], scheme) && !IsSpace(s[p + |scheme|])
    requires scheme == "https://" || scheme == "http://"
    ensures Run(s, p, NonSpace) >= |scheme| + 1
  {
    StartsWithIgnoreCaseTake(s[p..], scheme, |scheme|);
    forall k | p <= k <= p + |scheme| ensures InClass(s[k], NonSpace) {
      if k < p + |scheme| {
        assert s[k] == s[p..][k - p];
      }
    }
    RunAtLeast(s, p, |scheme| + 1, NonSpace);
  }

  /** A run of the non-space class holds no white space. */
  lemma RunNoSpace(s: string, p: nat, n: nat)
    requires p + n <= |s| && n <= Run(s, p, NonSpace)
    ensures forall c :: c in s[p..p + n] ==> !IsSpace(c)
  {
    forall c | c in s[p..p + n] ensures !IsSpace(c) {
      var k :| 0 <= k < n && s[p..p + n][k] == c;
      assert s[p + k] == c;
    }
  }

  /** No URL is found exactly when no scheme followed by a non-space starts at or after `from`. */
  lemma {:induction false} UrlInLineFromNone(s: string, from: nat)
    ensures UrlInLineFrom(s, from).None? <==> forall p :: from <= p ==> !UrlStartsAt(s, p)
    decreases |s| - from
  {
    if from >= |s| {
      forall p | from <= p ensures !UrlStartsAt(s, p) { }
    } else if !UrlStartsAt(s, from) {
      UrlInLineFromNone(s, from + 1);
      forall p | from <= p && UrlStartsAt(s, p) ensures from + 1 <= p { }
    }
  }

  /** `line.match(URL_REGEX)?.[0]`. */
  function UrlInLine(line: string): Option<string> {
    UrlInLineFrom(line, 0)
  }

  /** `guessExtensionFromUrl`: the lower-cased image extension ending the URL's path, or "". */
  function GuessExtension(pathname: Option<string>): (r: string)
    ensures r == "" || IsImageExtension(r)
    ensures r != "" ==> pathname.Some? && EndsWithIgnoreCase(pathname.value, r)
  {
    match pathname
    case None => ""
    case Some(p) =>
      if EndsWithIgnoreCase(p, ".jpg") then ".jpg"
      else if EndsWithIgnoreCase(p, ".jpeg") then ".jpeg"
      else if EndsWithIgnoreCase(p, ".png") then ".png"
      else if EndsWithIgnoreCase(p, ".gif") then ".gif"
      else if EndsWithIgnoreCase(p, ".webp") then ".webp"
      else ""
  }

  /** A path ending (in any case) with an image extension yields exactly that
      extension, lower-cased. */
  lemma GuessExtensionExact(pathname: string, ext: string)
    requires IsImageExtension(ext) && EndsWithIgnoreCase(pathname, ext)
    ensures GuessExtension(Some(pathname)) == ext
  {
    var low := Lower(pathname);
    LowerImageExtensions();
    ImageSuffixesExclusive(low);
    ImageSuffixesExclusiveLate(low);
  }

  /** No text ends with two of the image extensions tried before `.gif`. */
  lemma ImageSuffixesExclusive(s: string)
    ensures !(EndsWith(s, ".jpg") && EndsWith(s, ".jpeg"))
    ensures !(EndsWith(s, ".jpg") && EndsWith(s, ".png"))
    ensures !(EndsWith(s, ".jpeg") && EndsWith(s, ".png"))
  {
    EndsWithClash(s, ".jpg", ".jpeg", 1);
    EndsWithClash(s, ".jpg", ".png", 1);
    EndsWithClash(s, ".jpeg", ".png", 1);
  }

  /** Text ending with `.gif` or `.webp` ends with no earlier image extension. */
  lemma ImageSuffixesExclusiveLate(s: string)
    ensures EndsWith(s, ".gif") ==> !EndsWith(s, ".jpg") && !EndsWith(s, ".jpeg") && !EndsWith(s, ".png")
    ensures EndsWith(s, ".webp") ==> !EndsWith(s, ".jpg") && !EndsWith(s, ".jpeg") && !EndsWith(s, ".png") && !EndsWith(s, ".gif")
  {
    EndsWithClash(s, ".jpg", ".gif", 0);
    EndsWithClash(s, ".jpeg", ".gif", 0);
    EndsWithClash(s, ".png", ".gif", 0);
    EndsWithClash(s, ".jpg", ".webp", 0);
    EndsWithClash(s, ".jpeg", ".webp", 0);
    EndsWithClash(s, ".png", ".webp", 0);
    EndsWithClash(s, ".gif", ".webp", 0);
  }

  lemma LowerImageExtensions()
    ensures Lower(".jpg") == ".jpg" && Lower(".jpeg") == ".jpeg" && Lower(".png") == ".png"
    ensures Lower(".gif") == ".gif" && Lower(".webp") == ".webp"
  {
    LowerNoop(".jpg");
    LowerNoop(".jpeg");
    LowerNoop(".png");
    LowerNoop(".gif");
    LowerNoop(".webp");
  }

  // ------------------------------------------------------- Drive rewriting

  /** `/file\/d\/([^/]+)/`. */
  const FileDPattern := Pattern("file/d/", NoneOf({'/'}), None)

  /** `/id=([^&]+)/`. */
  const IdPattern := Pattern("id=", NoneOf({'&'}), None)

  const DriveUcPrefix := "https://drive.google.com/uc?id="

  /** `extractGoogleDriveId`: the `file/d/{id}` segment, else the `id={id}` parameter.
      The source's `folders/` test returns null either way and changes nothing. */
  function ExtractGoogleDriveId(url: string): (r: Option<string>)
    ensures r.Some? ==> r.value != []
  {
    match Capture(url, FileDPattern)
    case Some(id) => Some(id)
    case None => Capture(url, IdPattern)
  }

  /** `normalizeDriveUrl`, for every host alike. */
  function NormalizeDriveUrl(url: string): string {
    match ExtractGoogleDriveId(url)
    case None => Trim(url)
    case Some(id) => DriveUcPrefix + id
  }

  /** A `file/d/{id}` link becomes the `uc?id=` link for that id, whatever the host. */
  lemma NormalizeFileLink(prefix: string, id: string, suffix: string)
    requires id != [] && '/' !in id
    requires suffix == [] || suffix[0] == '/'
    requires forall k: nat :: k < |prefix| ==> !MatchesAt(prefix + "file/d/" + id + suffix, k, FileDPattern)
    ensures NormalizeDriveUrl(prefix + "file/d/" + id + suffix) == DriveUcPrefix + id
  {
    CaptureOfShape(prefix, id, suffix, FileDPattern);
  }

  /** Without a `file/d/` segment, an `id={id}` parameter gives the `uc?id=` link for that id. */
  lemma NormalizeIdLink(prefix: string, id: string, suffix: string)
    requires id != [] && '&' !in id
    requires suffix == [] || suffix[0] == '&'
    requires forall k :: !MatchesAt(prefix + "id=" + id + suffix, k, FileDPattern)
    requires forall k: nat :: k < |prefix| ==> !MatchesAt(prefix + "id=" + id + suffix, k, IdPattern)
    ensures NormalizeDriveUrl(prefix + "id=" + id + suffix) == DriveUcPrefix + id
  {
    CaptureNone(prefix + "id=" + id + suffix, FileDPattern);
    CaptureOfShape(prefix, id, suffix, IdPattern);
  }

  /** A link with neither form (a folder link, a CDN link) is only trimmed. */
  lemma NormalizeOtherLink(url: string)
    requires forall k :: !MatchesAt(url, k, FileDPattern) && !MatchesAt(url, k, IdPattern)
    ensures NormalizeDriveUrl(url) == Trim(url)
  {
    CaptureNone(url, FileDPattern);
    CaptureNone(url, IdPattern);
  }

  /** A Drive file-view link becomes the `uc?id=` link. */
  lemma NormalizeDriveFileView(id: string)
    requires id != [] && '/' !in id
    ensures NormalizeDriveUrl("https://drive.google.com/file/d/" + id + "/view") == DriveUcPrefix + id
  {
    var host := "https://drive.google.com/";
    var url := "https://drive.google.com/file/d/" + id + "/view";
    assert host + "file/d/" + id + "/view" == url;
    assert url == "https://drive.google.com/file/d/" + (id + "/view");
    DriveHostFirst(id + "/view");
    NormalizeFileLink(host, id, "/view");
  }

  /** On the Drive host, no `file/d/` starts before the path. */
  lemma DriveHostFirst(rest: string)
    ensures forall k: nat :: k < 25 ==> !MatchesAt("https://drive.google.com/file/d/" + rest, k, FileDPattern)
  {
    var s := "https://drive.google.com/file/d/" + rest;
    DriveUcPrefixLetters();
    forall k: nat | k < 25 ensures !OccursAt(s, "file/d/", k) {
      assert s[k] == DriveUcPrefix[k];
    }
  }

  /** The letters of the `uc?id=` prefix that the Drive patterns look for. */
  lemma DriveUcPrefixLetters()
    ensures |DriveUcPrefix| == 31 && DriveUcPrefix[..25] == "https://drive.google.com/"
    ensures forall k :: 0 <= k < |DriveUcPrefix| ==> DriveUcPrefix[k] != 'f'
    ensures forall k :: 0 <= k < 30 ==> DriveUcPrefix[k] != '='
  {
    assert 'f' !in DriveUcPrefix;
    assert '=' !in DriveUcPrefix[..30];
    assert forall k :: 0 <= k < 30 ==> DriveUcPrefix[k] == DriveUcPrefix[..30][k];
  }

  /** Normalising a `uc?id=` link whose id has neither `/` nor `&` changes nothing. */
  lemma NormalizeUcLinkStable(id: string)
    requires id != [] && '/' !in id && '&' !in id
    ensures NormalizeDriveUrl(DriveUcPrefix + id) == DriveUcPrefix + id
  {
    var head := "https://drive.google.com/uc?";
    assert head + "id=" + id + "" == DriveUcPrefix + id;
    UcLinkHasNoFileSegment(id);
    UcLinkIdFirst(id);
    NormalizeIdLink(head, id, "");
  }

  lemma UcLinkHasNoFileSegment(id: string)
    requires '/' !in id
    ensures forall k :: !MatchesAt(DriveUcPrefix + id, k, FileDPattern)
  {
    var s := DriveUcPrefix + id;
    DriveUcPrefixLetters();
    forall k: nat ensures !OccursAt(s, "file/d/", k) {
      if k + 7 <= |s| {
        if k < 31 {
          assert s[k..k + 7][0] == s[k] == DriveUcPrefix[k];
        } else {
          assert s[k..k + 7][4] == s[k + 4] == id[k + 4 - 31];
        }
      }
    }
  }

  lemma UcLinkIdFirst(id: string)
    ensures forall k: nat :: k < 28 ==> !MatchesAt(DriveUcPrefix + id, k, IdPattern)
  {
    var s := DriveUcPrefix + id;
    DriveUcPrefixLetters();
    forall k: nat | k < 28 ensures !OccursAt(s, "id=", k) {
      assert s[k..k + 3][2] == s[k + 2] == DriveUcPrefix[k + 2] != '=';
    }
  }

  /** `extractParentheticalName`: with the URL taken out, the text of a final
      `(...)` group (no parentheses inside), trimmed; otherwise "". */
  function ExtractParentheticalName(line: string, url: string): (r: string)
    ensures NoEdgeSpace(r)
    ensures r != "" ==> '(' !in r && ')' !in r
  {
    var withoutUrl := Trim(RemoveFirst(line, url));
    var t := TrimEnd(withoutUrl);
    if t != [] && t[|t| - 1] == ')' then
      var body := t[..|t| - 1];
      match LastIndexIn(body, {'(', ')'})
      case Some(q) =>
        if body[q] == '(' && q + 1 < |body| then
          var inner := body[q + 1..];
          assert forall c :: c in inner ==> c != '(' && c != ')' by {
            forall c | c in inner ensures c != '(' && c != ')' {
              var k :| 0 <= k < |inner| && inner[k] == c;
              assert body[q + 1 + k] == c;
            }
          }
          TrimChars(inner);
          Trim(inner)
        else ""
      case None => ""
    else ""
  }

  // ------------------------------------------------------------- file names

  /** The extensions `guessExtensionFromUrl` can return, and the `.png` default. */
  predicate IsImageExtension(ext: string) {
    ext == ".jpg" || ext == ".jpeg" || ext == ".png" || ext == ".gif" || ext == ".webp"
  }

  /** `image-{n}{ext}`, the name of a record that names no file. */
  function NumberedName(n: nat, ext: string): (r: string)
    requires IsImageExtension(ext)
    ensures r != [] && NoEdgeSpace(r)
    ensures forall c :: c in r ==> !FileBadChar(c) && !IsSpace(c)
  {
    var r := "image-" + NatToString(n) + ext;
    NumberedNameChars(NatToString(n), ext);
    r
  }

  /** Lower-case letters, digits, `.` and `-`: what a numbered name is made of. */
  predicate NameChar(c: char) {
    'a' <= c <= 'z' || '0' <= c <= '9' || c == '.' || c == '-'
  }

  lemma NumberedNameChars(digits: string, ext: string)
    requires IsImageExtension(ext)
    requires forall c :: c in digits ==> '0' <= c <= '9'
    ensures var r := "image-" + digits + ext;
      r[0] == 'i' && 'a' <= r[|r| - 1] <= 'z' && forall c :: c in r ==> NameChar(c)
  {
    var r := "image-" + digits + ext;
    assert forall c :: c in ext ==> NameChar(c);
    assert forall c :: c in "image-" ==> NameChar(c);
    assert r[|r| - 1] == ext[|ext| - 1];
  }

  /** The file name given to a record: the sanitised explicit name from the path
      hint, else the sanitised parenthetical name, else `image-{count+1}{ext}`. */
  function PlanFilename(explicit: string, parenthetical: string, count: nat, ext: string): (r: string)
    requires IsImageExtension(ext)
    ensures r != ""
    ensures forall c :: c in r ==> !FileBadChar(c)
    ensures NoEdgeSpace(r)
  {
    var a := SanitizeFilename(explicit);
    var b := SanitizeFilename(parenthetical);
    if a != "" then a
    else if b != "" then b
    else NumberedName(count + 1, ext)
  }

  // ------------------------------------------------------- catalog map

  /** A JavaScript `Map<string, Catalog>`: entries plus their insertion order. */
  datatype CatalogMap = CatalogMap(order: seq<string>, entries: map<string, Catalog>)

  /** Keys in insertion order, each once, each keying the catalog with that path. */
  ghost predicate WellFormed(cm: CatalogMap) {
    && (forall i, j :: 0 <= i < j < |cm.order| ==> cm.order[i] != cm.order[j])
    && (forall k :: k in cm.entries <==> k in cm.order)
    && (forall k :: k in cm.entries ==> cm.entries[k].path == k && cm.entries[k].name == CatalogName(k))
  }

  /** `Array.from(catalogs.values())`. */
  function Values(cm: CatalogMap): (r: seq<Catalog>)
    requires forall k :: k in cm.order ==> k in cm.entries
    ensures |r| == |cm.order|
    ensures forall i :: 0 <= i < |r| ==> r[i] == cm.entries[cm.order[i]]
  {
    seq(|cm.order|, i requires 0 <= i < |cm.order| => cm.entries[cm.order[i]])
  }

  /** The display name of a new catalog: the last non-empty segment of its path. */
  function CatalogName(path: string): (r: string)
    ensures r != ""
  {
    var segs := Segments(path);
    if segs != [] then segs[|segs| - 1]
    else if path != "" then path
    else DefaultRoot
  }

  /** `ensureCatalog`: the map with a (possibly new, empty) catalog for `path`. */
  function EnsureCatalog(path: string, cm: CatalogMap): (r: CatalogMap)
    ensures path in r.entries
  {
    if path in cm.entries then cm
    else CatalogMap(cm.order + [path], cm.entries[path := Catalog(CatalogName(path), path, [])])
  }

  /** `catalog.files.push(file)` on the catalog stored under `path`. */
  function PushFile(cm: CatalogMap, path: string, file: CatalogFile): CatalogMap
    requires path in cm.entries
  {
    var cat := cm.entries[path];
    cm.(entries := cm.entries[path := cat.(files := cat.files + [file])])
  }

  /** `ensureCatalog(path, catalogs).files.push(file)`. */
  function AddFile(cm: CatalogMap, path: string, file: CatalogFile): CatalogMap {
    PushFile(EnsureCatalog(path, cm), path, file)
  }

  /** Files already in the catalog for `path`. */
  function FilesOf(cm: CatalogMap, path: string): seq<CatalogFile> {
    if path in cm.entries then cm.entries[path].files else []
  }

  /** Adding a file appends it to its own folder's catalog and to no other;
      a new folder is appended to the insertion order. */
  lemma AddFileEffect(cm: CatalogMap, path: string, file: CatalogFile)
    requires WellFormed(cm)
    ensures WellFormed(AddFile(cm, path, file))
    ensures FilesOf(AddFile(cm, path, file), path) == FilesOf(cm, path) + [file]
    ensures forall k :: k != path ==> FilesOf(AddFile(cm, path, file), k) == FilesOf(cm, k)
    ensures AddFile(cm, path, file).order == if path in cm.entries then cm.order else cm.order + [path]
  {
    AddFileWellFormed(cm, path, file);
  }

  lemma AddFileWellFormed(cm: CatalogMap, path: string, file: CatalogFile)
    requires WellFormed(cm)
    ensures WellFormed(AddFile(cm, path, file))
  {
    var cm1 := EnsureCatalog(path, cm);
    assert WellFormed(cm1);
  }

  // -------------------------------------------------------- the line step

  datatype ParseState = ParseState(catalogs: CatalogMap, counters: map<string, nat>, currentFolder: string)

  const Initial := ParseState(CatalogMap([], map[]), map[], DefaultRoot)

  /** The pieces of `content.split(/\r?\n/)`. */
  function SplitLines(content: string): seq<string> {
    var pieces := Split(content, '\n');
    seq(|pieces|, i requires 0 <= i < |pieces| =>
      if i < |pieces| - 1 && pieces[i] != [] && pieces[i][|pieces[i]| - 1] == '\r'
      then pieces[i][..|pieces[i]| - 1] else pieces[i])
  }

  /** The trimmed, non-empty tab-separated columns of a line. */
  function Columns(line: string): (r: seq<string>)
    ensures forall i :: 0 <= i < |r| ==> r[i] != ""
  {
    var raw := Split(line, '\t');
    NonEmpty(seq(|raw|, i requires 0 <= i < |raw| => Trim(raw[i])))
  }

  /** A header column: "SKU" exactly, or one mentioning "Packshot" or "Etalase", ignoring case. */
  predicate IsHeaderColumn(col: string) {
    EqualsIgnoreCase(col, "SKU") || ContainsIgnoreCase(col, "Packshot") || ContainsIgnoreCase(col, "Etalase")
  }

  predicate IsHeader(cols: seq<string>) {
    exists i :: 0 <= i < |cols| && IsHeaderColumn(cols[i])
  }

  /** `columns.find(isLikelyUrl)`. */
  function FirstLikelyUrl(cols: seq<string>): (r: Option<string>)
    ensures r.Some? ==> r.value in cols && IsLikelyUrl(r.value)
    ensures r.None? ==> forall i :: 0 <= i < |cols| ==> !IsLikelyUrl(cols[i])
  {
    if cols == [] then None
    else if IsLikelyUrl(cols[0]) then Some(cols[0])
    else FirstLikelyUrl(cols[1..])
  }

  /** `columns.find((col) => col !== url)`. */
  function FirstOther(cols: seq<string>, url: string): (r: Option<string>)
    ensures r.Some? ==> r.value in cols && r.value != url
  {
    if cols == [] then None
    else if cols[0] != url then Some(cols[0])
    else FirstOther(cols[1..], url)
  }

  /** What one input line is, as the loop body decides it. */
  datatype LineKind = Blank | Header | FolderMarker(folder: string) | FileRecord(url: string)

  function Classify(rawLine: string): LineKind {
    var line := Trim(rawLine);
    if line == "" then Blank
    else if IsHeader(Columns(line)) then Header
    else ClassifyContent(line, Columns(line))
  }

  /** A trimmed line that is neither blank nor a header: a record when a column looks
      like a URL or the line holds a link, a folder marker otherwise. */
  function ClassifyContent(line: string, cols: seq<string>): LineKind {
    match LineUrl(line, cols)
    case None => FolderMarker(SanitizeFolderPath(line))
    case Some(u) => FileRecord(u)
  }

  /** `urlFromColumns || urlFromLine`. */
  function LineUrl(line: string, cols: seq<string>): Option<string> {
    match FirstLikelyUrl(cols)
    case Some(u) => Some(u)
    case None => UrlInLine(line)
  }

  /** The path hint of a record: another column, else the line without the URL, else the current folder. */
  function PathHint(line: string, url: string, currentFolder: string): string {
    match FirstOther(Columns(line), url)
    case Some(col) => col
    case None =>
      var rest := Trim(RemoveFirst(line, url));
      if rest != "" then rest else currentFolder
  }

  /** Where a file record goes and what it is called. */
  datatype Placement = Placement(folder: string, file: CatalogFile)

  function PlaceRecord(st: ParseState, line: string, url: string, urlPath: UrlPathname): (p: Placement)
    ensures p.folder != "" && p.file.filename != ""
  {
    var hint := PathHint(line, url, st.currentFolder);
    var parenthetical := ExtractParentheticalName(line, url);
    var split := SplitPath(if hint != "" then hint else DefaultRoot);
    var count := if split.folderPath in st.counters then st.counters[split.folderPath] else 0;
    var guessed := GuessExtension(urlPath(url));
    var ext := if guessed != "" then guessed else ".png";
    Placement(split.folderPath,
              CatalogFile(NormalizeDriveUrl(url), PlanFilename(split.explicitFilename, parenthetical, count, ext)))
  }

  /** Recording a placed file: its folder's counter goes up by one, the file is
      appended to that folder's catalog, and the folder becomes the current one. */
  function Record(st: ParseState, p: Placement): ParseState {
    var count := if p.folder in st.counters then st.counters[p.folder] else 0;
    ParseState(AddFile(st.catalogs, p.folder, p.file), st.counters[p.folder := count + 1], p.folder)
  }

  /** What a classified line does to the state: blank and header lines nothing, a
      folder marker with a non-empty path moves the current folder, a record is placed and recorded. */
  function Step(st: ParseState, kind: LineKind, line: string, urlPath: UrlPathname): ParseState {
    match kind
    case Blank => st
    case Header => st
    case FolderMarker(folder) => if folder != "" then st.(currentFolder := folder) else st
    case FileRecord(url) => Record(st, PlaceRecord(st, line, url, urlPath))
  }

  /** One iteration of the loop in `parseSKUFile`. */
  function ParseLine(st: ParseState, rawLine: string, urlPath: UrlPathname): ParseState {
    Step(st, Classify(rawLine), Trim(rawLine), urlPath)
  }

  /** The loop run over a sequence of lines. */
  function ParseLines(lines: seq<string>, urlPath: UrlPathname): ParseState {
    if lines == [] then Initial
    else ParseLine(ParseLines(lines[..|lines| - 1], urlPath), lines[|lines| - 1], urlPath)
  }

  /** The invariant of the parse state: a well-formed map whose counter for each folder is
      the number of files in that folder's catalog, and a non-empty current folder. */
  ghost predicate Valid(st: ParseState) {
    && WellFormed(st.catalogs)
    && (forall k :: k in st.counters <==> k in st.catalogs.entries)
    && (forall k :: k in st.counters ==> st.counters[k] == |st.catalogs.entries[k].files|)
    && st.currentFolder != ""
  }

  /** Recording keeps the invariant, appends the file to its folder only, and leaves
      the catalog with `k + 1` files where the counter said `k`. */
  lemma RecordEffect(st: ParseState, p: Placement)
    requires Valid(st) && p.folder != ""
    ensures Valid(Record(st, p))
    ensures FilesOf(Record(st, p).catalogs, p.folder) == FilesOf(st.catalogs, p.folder) + [p.file]
    ensures forall k :: k != p.folder ==> FilesOf(Record(st, p).catalogs, k) == FilesOf(st.catalogs, k)
  {
    var next := Record(st, p);
    AddFileEffect(st.catalogs, p.folder, p.file);
    assert next.catalogs == AddFile(st.catalogs, p.folder, p.file);
    forall k | k in next.counters
      ensures next.counters[k] == |next.catalogs.entries[k].files|
    {
      assert |FilesOf(next.catalogs, k)| == next.counters[k];
    }
  }

  lemma StepValid(st: ParseState, kind: LineKind, line: string, urlPath: UrlPathname)
    requires Valid(st)
    ensures Valid(Step(st, kind, line, urlPath))
  {
    if kind.FileRecord? {
      RecordEffect(st, PlaceRecord(st, line, kind.url, urlPath));
    }
  }

  lemma {:induction false} ParseLinesValid(lines: seq<string>, urlPath: UrlPathname)
    ensures Valid(ParseLines(lines, urlPath))
  {
    if lines != [] {
      ParseLinesValid(lines[..|lines| - 1], urlPath);
      var last := lines[|lines| - 1];
      StepValid(ParseLines(lines[..|lines| - 1], urlPath), Classify(last), Trim(last), urlPath);
    }
  }

  lemma ParseLinesSnoc(lines: seq<string>, i: nat, urlPath: UrlPathname)
    requires i < |lines|
    ensures ParseLines(lines[..i + 1], urlPath)
         == Step(ParseLines(lines[..i], urlPath), Classify(lines[i]), Trim(lines[i]), urlPath)
  {
    assert lines[..i + 1][..i] == lines[..i];
  }

  /** The part of the loop body that records a placed file: the folder's catalog
      is ensured, its counter incremented, the file pushed, and the folder becomes
      the current one. */
  method RecordFile(catalogs0: CatalogMap, counters0: map<string, nat>, currentFolder0: string,
                    folder: string, file: CatalogFile)
    returns (catalogs: CatalogMap, counters: map<string, nat>, currentFolder: string)
    ensures ParseState(catalogs, counters, currentFolder)
         == Record(ParseState(catalogs0, counters0, currentFolder0), Placement(folder, file))
  {
    currentFolder := folder;
    catalogs := EnsureCatalog(folder, catalogs0);
    var count := if folder in counters0 then counters0[folder] else 0;
    counters := counters0[folder := count + 1];
    catalogs := PushFile(catalogs, folder, file);
  }

  /** Where a record line's file goes and what it is called: the folder from the
      path hint, the normalised link, and the planned file name. */
  method PlaceRow(st: ParseState, line: string, url: string, urlPath: UrlPathname)
    returns (folder: string, file: CatalogFile)
    ensures Placement(folder, file) == PlaceRecord(st, line, url, urlPath)
  {
    var pathHint := PathHint(line, url, st.currentFolder);
    var parentheticalName := ExtractParentheticalName(line, url);
    var split := SplitPath(if pathHint != "" then pathHint else DefaultRoot);
    folder := split.folderPath;
    var count := if folder in st.counters then st.counters[folder] else 0;
    var guessed := GuessExtension(urlPath(url));
    var inferredExtension := if guessed != "" then guessed else ".png";
    var filename := PlanFilename(split.explicitFilename, parentheticalName, count, inferredExtension);
    file := CatalogFile(NormalizeDriveUrl(url), filename);
  }

  /** `parseSKUFile` as a function of the text. */
  function ParseSku(content: string, urlPath: UrlPathname): seq<Catalog> {
    var st := ParseLines(SplitLines(content), urlPath);
    ParseLinesValid(SplitLines(content), urlPath);
    Values(st.catalogs)
  }

  /** `parseSKUFile`: the loop over the lines, updating the catalog map, the
      per-folder counters and the current folder. */
  method ParseSkuFile(content: string, urlPath: UrlPathname) returns (result: seq<Catalog>)
    ensures result == ParseSku(content, urlPath)
  {
    var lines := SplitLines(content);
    var catalogs := CatalogMap([], map[]);
    var counters: map<string, nat> := map[];
    var currentFolder := DefaultRoot;

    for i := 0 to |lines|
      invariant ParseState(catalogs, counters, currentFolder) == ParseLines(lines[..i], urlPath)
    {
      ParseLinesSnoc(lines, i, urlPath);
      catalogs, counters, currentFolder := ParseRow(catalogs, counters, currentFolder, lines[i], urlPath);
    }
    assert lines[..|lines|] == lines;
    ParseLinesValid(lines, urlPath);
    result := Values(catalogs);
  }

  /** The body of the loop in `parseSKUFile`, for one raw line. */
  method ParseRow(catalogs0: CatalogMap, counters0: map<string, nat>, currentFolder0: string,
                  rawLine: string, urlPath: UrlPathname)
    returns (catalogs: CatalogMap, counters: map<string, nat>, currentFolder: string)
    ensures ParseState(catalogs, counters, currentFolder)
         == Step(ParseState(catalogs0, counters0, currentFolder0), Classify(rawLine), Trim(rawLine), urlPath)
  {
    catalogs, counters, currentFolder := catalogs0, counters0, currentFolder0;
    var line := Trim(rawLine);
    if line == "" {
      return;
    }
    var columns := Columns(line);
    if IsHeader(columns) {
      return;
    }
    catalogs, counters, currentFolder := ParseContentRow(catalogs0, counters0, currentFolder0, line, columns, urlPath);
  }

  /** The loop body once the line is known to be neither blank nor a header. */
  method ParseContentRow(catalogs0: CatalogMap, counters0: map<string, nat>, currentFolder0: string,
                         line: string, columns: seq<string>, urlPath: UrlPathname)
    returns (catalogs: CatalogMap, counters: map<string, nat>, currentFolder: string)
    ensures ParseState(catalogs, counters, currentFolder)
         == Step(ParseState(catalogs0, counters0, currentFolder0), ClassifyContent(line, columns), line, urlPath)
  {
    var urlFromColumns := FirstLikelyUrl(columns);
    var urlFromLine := UrlInLine(line);
    var url := if urlFromColumns.Some? then urlFromColumns else urlFromLine;
    match url {
      case None =>
        catalogs, counters, currentFolder := catalogs0, counters0, currentFolder0;
        var folderPath := SanitizeFolderPath(line);
        if folderPath != "" {
          currentFolder := folderPath;
        }
      case Some(u) =>
        var folder, file := PlaceRow(ParseState(catalogs0, counters0, currentFolder0), line, u, urlPath);
        catalogs, counters, currentFolder := RecordFile(catalogs0, counters0, currentFolder0, folder, file);
        StepFileRecord(ParseState(catalogs0, counters0, currentFolder0), line, u, urlPath, Placement(folder, file));
    }
  }

  /** A record line whose placement is known steps to recording that placement. */
  lemma StepFileRecord(st: ParseState, line: string, url: string, urlPath: UrlPathname, p: Placement)
    requires p == PlaceRecord(st, line, url, urlPath)
    ensures Step(st, FileRecord(url), line, urlPath) == Record(st, p)
  {
  }

  // ------------------------------------------------------ what a line does

  /** How the loop body classifies a line: blank when it trims to nothing, a header
      when a column is a header column, a record exactly when a column looks like a
      URL or the line holds a `http(s)://` link, and a folder marker otherwise. */
  lemma ClassifyCases(rawLine: string)
    ensures var line := Trim(rawLine);
      var cols := Columns(line);
      && (Classify(rawLine) == Blank <==> line == "")
      && (Classify(rawLine) == Header <==> line != "" && IsHeader(cols))
      && (Classify(rawLine).FileRecord? <==>
            && line != "" && !IsHeader(cols)
            && ((exists i :: 0 <= i < |cols| && IsLikelyUrl(cols[i])) || (exists p: nat :: UrlStartsAt(line, p))))
  {
    UrlInLineFromNone(Trim(rawLine), 0);
  }

  /** A header line changes nothing, not even the current folder. */
  lemma HeaderLineIgnored(st: ParseState, rawLine: string, urlPath: UrlPathname)
    requires IsHeader(Columns(Trim(rawLine)))
    ensures ParseLine(st, rawLine, urlPath) == st
  {
  }

  /** A record line appends exactly one file, to the folder it is placed in, and moves
      the current folder there; a folder marker leaves catalogs and counters alone and
      moves the current folder only when its sanitised form is non-empty; blank and
      header lines change nothing. */
  lemma ParseLineEffect(st: ParseState, rawLine: string, urlPath: UrlPathname)
    requires Valid(st)
    ensures var next := ParseLine(st, rawLine, urlPath);
      match Classify(rawLine)
      case FileRecord(url) =>
        var p := PlaceRecord(st, Trim(rawLine), url, urlPath);
        && FilesOf(next.catalogs, p.folder) == FilesOf(st.catalogs, p.folder) + [p.file]
        && (forall k :: k != p.folder ==> FilesOf(next.catalogs, k) == FilesOf(st.catalogs, k))
        && next.currentFolder == p.folder
      case FolderMarker(folder) =>
        && next.catalogs == st.catalogs && next.counters == st.counters
        && next.currentFolder == (if folder != "" then folder else st.currentFolder)
      case _ => next == st
  {
    if Classify(rawLine).FileRecord? {
      RecordEffect(st, PlaceRecord(st, Trim(rawLine), Classify(rawLine).url, urlPath));
    }
  }

  /** The count behind a record's planned name is the number of files already in its
      folder, named ones included. */
  lemma PlaceRecordCount(st: ParseState, line: string, url: string, urlPath: UrlPathname)
    requires Valid(st)
    ensures var p := PlaceRecord(st, line, url, urlPath);
      var hint := PathHint(line, url, st.currentFolder);
      var guessed := GuessExtension(urlPath(url));
      p.file.filename == PlanFilename(SplitPath(if hint != "" then hint else DefaultRoot).explicitFilename,
                                      ExtractParentheticalName(line, url),
                                      |FilesOf(st.catalogs, p.folder)|,
                                      if guessed != "" then guessed else ".png")
  {
    var hint := PathHint(line, url, st.currentFolder);
    var split := SplitPath(if hint != "" then hint else DefaultRoot);
    var p := PlaceRecord(st, line, url, urlPath);
    assert p.folder == split.folderPath;
  }

  /** The name a record gets, in order of priority: the explicit file name of its
      path hint, then the name in parentheses after its URL (each only when it
      survives sanitising), then `image-{n}{ext}` with `n` one more than the number
      of files already in its folder. */
  lemma PlaceRecordName(st: ParseState, line: string, url: string, urlPath: UrlPathname)
    requires Valid(st)
    ensures var p := PlaceRecord(st, line, url, urlPath);
      var hint := PathHint(line, url, st.currentFolder);
      var explicit := SanitizeFilename(SplitPath(if hint != "" then hint else DefaultRoot).explicitFilename);
      var parenthetical := SanitizeFilename(ExtractParentheticalName(line, url));
      var guessed := GuessExtension(urlPath(url));
      && (explicit != "" ==> p.file.filename == explicit)
      && (explicit == "" && parenthetical != "" ==> p.file.filename == parenthetical)
      && (explicit == "" && parenthetical == "" ==>
            p.file.filename == NumberedName(|FilesOf(st.catalogs, p.folder)| + 1,
                                            if guessed != "" then guessed else ".png"))
  {
    PlaceRecordCount(st, line, url, urlPath);
  }

  /** The first unnamed record of a folder not seen before is `image-1{ext}`. */
  lemma FirstRecordNumberedOne(st: ParseState, line: string, url: string, urlPath: UrlPathname)
    requires Valid(st)
    requires PlaceRecord(st, line, url, urlPath).folder !in st.catalogs.entries
    requires var hint := PathHint(line, url, st.currentFolder);
      && SanitizeFilename(SplitPath(if hint != "" then hint else DefaultRoot).explicitFilename) == ""
      && SanitizeFilename(ExtractParentheticalName(line, url)) == ""
    ensures var guessed := GuessExtension(urlPath(url));
      PlaceRecord(st, line, url, urlPath).file.filename == NumberedName(1, if guessed != "" then guessed else ".png")
  {
    PlaceRecordName(st, line, url, urlPath);
  }

  /** A line only extends the result: catalogs keep their place and their files, and
      file lists grow only at the end. */
  lemma ParseLineExtends(st: ParseState, rawLine: string, urlPath: UrlPathname)
    requires Valid(st)
    ensures var next := ParseLine(st, rawLine, urlPath);
      && st.catalogs.order <= next.catalogs.order
      && forall k :: FilesOf(st.catalogs, k) <= FilesOf(next.catalogs, k)
  {
    ParseLineEffect(st, rawLine, urlPath);
    if Classify(rawLine).FileRecord? {
      AddFileEffect(st.catalogs, PlaceRecord(st, Trim(rawLine), Classify(rawLine).url, urlPath).folder,
                    PlaceRecord(st, Trim(rawLine), Classify(rawLine).url, urlPath).file);
    }
  }

  /** Catalogs come out in first-seen order and files in encounter order: the result of
      a prefix of the lines is a prefix of the result of all of them, folder by folder. */
  lemma {:induction false} ParseLinesExtends(lines: seq<string>, n: nat, urlPath: UrlPathname)
    requires n <= |lines|
    ensures ParseLines(lines[..n], urlPath).catalogs.order <= ParseLines(lines, urlPath).catalogs.order
    ensures forall k :: FilesOf(ParseLines(lines[..n], urlPath).catalogs, k)
                     <= FilesOf(ParseLines(lines, urlPath).catalogs, k)
    decreases |lines|
  {
    if n < |lines| {
      var init := lines[..|lines| - 1];
      assert lines[..n] == init[..n];
      ParseLinesExtends(init, n, urlPath);
      ParseLinesValid(init, urlPath);
      ParseLineExtends(ParseLines(init, urlPath), lines[|lines| - 1], urlPath);
    } else {
      assert lines[..n] == lines;
    }
  }

  /** Each folder path has one catalog: the paths in the result are pairwise different,
      and each catalog is named after the last segment of its path. */
  lemma ParseSkuCatalogs(content: string, urlPath: UrlPathname)
    ensures var r := ParseSku(content, urlPath);
      && (forall i, j :: 0 <= i < j < |r| ==> r[i].path != r[j].path)
      && (forall i :: 0 <= i < |r| ==> r[i].name == CatalogName(r[i].path))
  {
    ParseLinesValid(SplitLines(content), urlPath);
  }
}
