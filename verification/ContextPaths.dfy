/** Which paths automatic discovery looks at: the classification by directory, extension and file name. */
module ContextPaths {
  import opened TextLines

  datatype Mode = Automatic | Explicit

  datatype Kind = Binary | Ignored | Generated | Metadata | Source

  datatype Classification = Classification(path: string, kind: Kind, tier: nat, discoverable: bool)

  const IGNORED_DIRECTORIES: set<string> :=
    {"node_modules", ".git", "dist", "build", "coverage", ".next", ".turbo", ".cache", "cache", "vendor",
     "target", "bin", "obj", ".venv", "venv", "__pycache__"}

  const BINARY_EXTENSIONS: set<string> :=
    {".7z", ".avi", ".bin", ".class", ".db", ".dll", ".dmg", ".exe", ".gif", ".gz", ".ico", ".jpeg", ".jpg", ".png",
     ".m4a", ".mkv", ".mov", ".mp3", ".mp4", ".pdf", ".pyc", ".rar", ".sqlite", ".sqlite3", ".tar", ".ttf",
     ".wasm", ".webp", ".woff", ".woff2", ".zip"}

  const METADATA_FILES: set<string> :=
    {"cargo.lock", "composer.lock", "go.sum", "npm-shrinkwrap.json", "package-lock.json", "pnpm-lock.yaml",
     "poetry.lock", "yarn.lock"}

  const GENERATED_WORDS: set<string> := {"generated", "autogen", "auto-generated", "bundle"}

  const GENERATED_SUFFIXES: set<string> := {".min.js", ".min.css", ".map"}

  function Lower(c: char): char {
    if 'A' <= c <= 'Z' then (c as int - 'A' as int + 'a' as int) as char else c
  }

  function LowerCase(s: string): (r: string)
    ensures |r| == |s| && forall i :: 0 <= i < |s| ==> r[i] == Lower(s[i])
  {
    seq(|s|, i requires 0 <= i < |s| => Lower(s[i]))
  }

  /** Backslashes read as slashes. */
  function Slashes(s: string): (r: string)
    ensures |r| == |s| && forall i :: 0 <= i < |s| ==> r[i] == if s[i] == '\\' then '/' else s[i]
  {
    seq(|s|, i requires 0 <= i < |s| => if s[i] == '\\' then '/' else s[i])
  }

  function DropDotSlash(s: string): (r: string)
    ensures EndsWith(s, r)
  {
    if |s| >= 2 && s[..2] == "./" then s[2..] else s
  }

  function DropLeadingSlashes(s: string): (r: string)
    ensures EndsWith(s, r) && (r != "" ==> r[0] != '/')
    ensures forall i :: 0 <= i < |s| - |r| ==> s[i] == '/'
  {
    if s != "" && s[0] == '/' then DropLeadingSlashes(s[1..]) else s
  }

  function Normalize(path: string): (r: string)
    ensures '\\' !in r && (r != "" ==> r[0] != '/')
  {
    DropLeadingSlashes(DropDotSlash(Slashes(path)))
  }

  function NonEmpty(pieces: seq<string>): seq<string> {
    if pieces == [] then []
    else (if pieces[0] == "" then [] else [pieces[0]]) + NonEmpty(pieces[1..])
  }

  /** The part after the last dot, with the dot; empty when there is no dot. */
  function Extension(name: string): string {
    if name == "" then ""
    else if Extension(name[1..]) != "" then Extension(name[1..])
    else if name[0] == '.' then name
    else ""
  }

  predicate EndsWith(s: string, suffix: string) {
    |s| >= |suffix| && s[|s| - |suffix|..] == suffix
  }

  predicate IsDelimiter(c: char) {
    c == '.' || c == '_' || c == '-'
  }

  /** word occurs in name with a delimiter or the end of the name on either side. */
  predicate HasWord(name: string, word: string) {
    exists i :: 0 <= i <= |name| - |word| && WordAt(name, word, i)
  }

  predicate WordAt(name: string, word: string, i: int)
    requires 0 <= i <= |name| - |word|
  {
    && name[i..i + |word|] == word
    && (i == 0 || IsDelimiter(name[i - 1]))
    && (i + |word| == |name| || IsDelimiter(name[i + |word|]))
  }

  predicate Contains(s: string, t: string) {
    exists i :: 0 <= i <= |s| - |t| && OccursAt(s, t, i)
  }

  predicate OccursAt(s: string, t: string, i: int)
    requires 0 <= i <= |s| - |t|
  {
    s[i..i + |t|] == t
  }

  predicate LooksGenerated(name: string, path: string) {
    || (exists w :: w in GENERATED_WORDS && HasWord(name, w))
    || (exists x :: x in GENERATED_SUFFIXES && EndsWith(name, x))
    || Contains(path, "/generated/")
  }

  function KindOf(normalized: string): Kind {
    var lower := LowerCase(normalized);
    var segments := NonEmpty(SplitOn('/', lower));
    var name := if segments == [] then lower else segments[|segments| - 1];
    if exists d :: d in segments && d in IGNORED_DIRECTORIES then Ignored
    else if Extension(name) in BINARY_EXTENSIONS then Binary
    else if LooksGenerated(name, lower) then Generated
    else if name in METADATA_FILES then Metadata
    else Source
  }

  function Classify(path: string, mode: Mode): (c: Classification)
    ensures c.discoverable <==> mode == Explicit || c.kind == Metadata || c.kind == Source
  {
    var normalized := Normalize(path);
    var kind := KindOf(normalized);
    if mode == Explicit then Classification(normalized, kind, 3, true)
    else
      match kind
      case Metadata => Classification(normalized, kind, 1, true)
      case Source => Classification(normalized, kind, 2, true)
      case _ => Classification(normalized, kind, 0, false)
  }

  lemma {:induction false} NonEmptyMember(pieces: seq<string>, x: string)
    ensures x in NonEmpty(pieces) <==> x in pieces && x != ""
  {
    if pieces != [] {
      NonEmptyMember(pieces[1..], x);
      assert pieces == [pieces[0]] + pieces[1..];
    }
  }

  /** Whatever stands before and behind it, an ignored directory name anywhere on the path decides. */
  lemma IgnoredBelow(before: string, name: string, after: string)
    requires LowerCase(name) in IGNORED_DIRECTORIES && '/' !in name
    ensures KindOf(name) == Ignored && KindOf(name + "/" + after) == Ignored
    ensures KindOf(before + "/" + name) == Ignored && KindOf(before + "/" + name + "/" + after) == Ignored
  {
    OwnSegment(name);
    LowerCaseConcat(name + "/", after);
    LowerCaseConcat(name, "/");
    LowerCaseConcat(before + "/", name);
    LowerCaseConcat(before, "/");
    LowerCaseConcat(before + "/" + name + "/", after);
    LowerCaseConcat(before + "/" + name, "/");
    assert LowerCase("/") == "/";
    hide *;
    var d, a, b := LowerCase(name), LowerCase(before), LowerCase(after);
    SplitOnConcat('/', d, b);
    SplitOnConcat('/', a, d);
    SplitOnConcat('/', a + ['/'] + d, b);
    SegmentDecides(name, d);
    SegmentDecides(name + "/" + after, d);
    SegmentDecides(before + "/" + name, d);
    SegmentDecides(before + "/" + name + "/" + after, d);
  }

  lemma LowerCaseConcat(s: string, t: string)
    ensures LowerCase(s + t) == LowerCase(s) + LowerCase(t)
  {
  }

  lemma OwnSegment(name: string)
    requires '/' !in name
    ensures SplitOn('/', LowerCase(name)) == [LowerCase(name)]
  {
    SplitJoin('/', [LowerCase(name)]);
    assert JoinWith('/', [LowerCase(name)]) == LowerCase(name);
  }

  lemma SegmentDecides(path: string, d: string)
    requires d in IGNORED_DIRECTORIES && d in SplitOn('/', LowerCase(path))
    ensures KindOf(path) == Ignored
  {
    ShortNamesUnlisted("");
    NonEmptyMember(SplitOn('/', LowerCase(path)), d);
    hide IGNORED_DIRECTORIES, BINARY_EXTENSIONS, METADATA_FILES, LooksGenerated, Extension, LowerCase, SplitOn;
  }

  lemma {:induction false} NoDotNoExtension(name: string)
    requires '.' !in name
    ensures Extension(name) == ""
  {
    if name != "" {
      NoDotNoExtension(name[1..]);
    }
  }

  /** The extension is what follows the last dot, together with the dot. */
  lemma {:induction false} ExtensionIs(stem: string, rest: string)
    requires '.' !in rest
    ensures Extension(rest) == "" && Extension(stem + "." + rest) == "." + rest
  {
    NoDotNoExtension(rest);
    var name := stem + "." + rest;
    if stem == "" {
      assert name[1..] == rest && name[0] == '.';
      assert name == "." + rest;
    } else {
      ExtensionIs(stem[1..], rest);
      assert name[1..] == stem[1..] + "." + rest;
    }
  }

  /** A path is ignored exactly when one of its segments, the last one included, is an ignored name. */
  lemma IgnoredIff(path: string)
    ensures KindOf(path) == Ignored <==> exists d :: d in SplitOn('/', LowerCase(path)) && d in IGNORED_DIRECTORIES
  {
    ShortNamesUnlisted("");
    hide IGNORED_DIRECTORIES, BINARY_EXTENSIONS, METADATA_FILES, LooksGenerated, Extension, LowerCase, SplitOn;
    hide NonEmpty;
    var pieces := SplitOn('/', LowerCase(path));
    forall d
      ensures d in NonEmpty(pieces) <==> d in pieces && d != ""
    {
      NonEmptyMember(pieces, d);
    }
  }

  /** The name a path is judged by: its last segment. */
  ghost predicate IsNameOf(name: string, path: string) {
    var segments := NonEmpty(SplitOn('/', LowerCase(path)));
    name == if segments == [] then LowerCase(path) else segments[|segments| - 1]
  }

  /** Among the other paths binary comes before generated, generated before metadata, and source is what is left. */
  lemma KindsInOrder(path: string, name: string)
    requires IsNameOf(name, path) && KindOf(path) != Ignored
    ensures KindOf(path) == Binary <==> Extension(name) in BINARY_EXTENSIONS
    ensures KindOf(path) == Generated <==>
              Extension(name) !in BINARY_EXTENSIONS && LooksGenerated(name, LowerCase(path))
    ensures KindOf(path) == Metadata <==>
              Extension(name) !in BINARY_EXTENSIONS && !LooksGenerated(name, LowerCase(path))
              && name in METADATA_FILES
  {
    hide IGNORED_DIRECTORIES, BINARY_EXTENSIONS, METADATA_FILES, LooksGenerated, Extension, LowerCase, SplitOn;
    hide NonEmpty;
  }

  /** The tiers: what discovery does not show, metadata, sources, and explicit requests. */
  lemma TiersAre(path: string, mode: Mode)
    ensures var c := Classify(path, mode);
            && c.tier <= 3
            && (c.tier == 0 <==> !c.discoverable)
            && (c.tier == 1 <==> mode == Automatic && c.kind == Metadata)
            && (c.tier == 3 <==> mode == Explicit)
  {
    hide KindOf, Normalize;
  }

  /** Short lower-case names without special characters normalize to themselves. */
  lemma PlainPath(path: string)
    requires path != "" && path[0] != '.' && path[0] != '/'
    requires forall i :: 0 <= i < |path| ==> path[i] != '\\' && !('A' <= path[i] <= 'Z')
    ensures Normalize(path) == path && LowerCase(path) == path
  {
    assert Slashes(path) == path;
    assert |path| >= 2 ==> path[..2][0] == path[0];
    assert LowerCase(path) == path;
  }

  /** A file under a directory whose own name looks binary is discoverable although the directory is not. */
  lemma UndiscoverableDirectoryDiscoverableFile()
    ensures !Classify("a.png", Automatic).discoverable
    ensures Classify("a.png/b", Automatic).discoverable
  {
    hide *;
    DirectoryIsBinary();
    FileIsSource();
    assert Classify("a.png", Automatic).kind == Binary && Classify("a.png/b", Automatic).kind == Source by {
      KindOfPlain("a.png");
      KindOfPlain("a.png/b");
    }
  }

  lemma KindOfPlain(path: string)
    requires path != "" && path[0] != '.' && path[0] != '/'
    requires forall i :: 0 <= i < |path| ==> path[i] != '\\' && !('A' <= path[i] <= 'Z')
    ensures Classify(path, Automatic).kind == KindOf(path)
  {
    hide KindOf, Normalize;
    PlainPath(path);
  }

  /** The names and extensions on the three lists are longer than one character. */
  lemma ShortNamesUnlisted(name: string)
    requires |name| <= 1
    ensures name !in IGNORED_DIRECTORIES && name !in BINARY_EXTENSIONS && name !in METADATA_FILES
  {
  }

  lemma ImageNotIgnored()
    ensures "a.png" !in IGNORED_DIRECTORIES
  {
  }

  lemma DirectoryIsBinary()
    ensures KindOf("a.png") == Binary
  {
    hide LooksGenerated, Normalize;
    PlainPath("a.png");
    SplitJoin('/', ["a.png"]);
    assert NonEmpty(["a.png"]) == ["a.png"];
    ImageNotIgnored();
    assert Extension("a.png") == ".png";
  }

  lemma KindOfPieces(path: string, segments: seq<string>)
    requires LowerCase(path) == path && NonEmpty(SplitOn('/', path)) == segments && segments != []
    requires forall d :: d in segments ==> d !in IGNORED_DIRECTORIES
    requires Extension(segments[|segments| - 1]) !in BINARY_EXTENSIONS
    requires !LooksGenerated(segments[|segments| - 1], path)
    ensures KindOf(path) == if segments[|segments| - 1] in METADATA_FILES then Metadata else Source
  {
    hide IGNORED_DIRECTORIES, BINARY_EXTENSIONS, METADATA_FILES, LooksGenerated, Extension;
  }

  lemma FileIsSource()
    ensures KindOf("a.png/b") == Source
  {
    hide LooksGenerated, Normalize, KindOf, IGNORED_DIRECTORIES, BINARY_EXTENSIONS, METADATA_FILES;
    var path := "a.png/b";
    PlainPath(path);
    SplitJoin('/', ["a.png", "b"]);
    assert JoinWith('/', ["a.png", "b"]) == path;
    assert NonEmpty(["a.png", "b"]) == ["a.png", "b"];
    ImageNotIgnored();
    ShortNamesUnlisted("b");
    ShortNamesUnlisted("");
    assert Extension("b") == "";
    TooShortForGenerated("b", path);
    KindOfPieces(path, ["a.png", "b"]);
  }

  lemma TooShortForGenerated(name: string, path: string)
    requires |name| <= 3 && |path| <= 10
    ensures !LooksGenerated(name, path)
  {
  }
}
