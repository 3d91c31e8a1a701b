/**
 Import suggestions and import resolution in the language server: the path that is suggested for a file must
 resolve to that file.  A path is the sequence of its names; the file system is a set of files.
 */
module Imports {
  import opened Wrappers

  type Path = seq<string>

  datatype Package = Package(name: string, dir: Path)

  // ----- dotted names -----

  predicate DotFree(s: string) {
    '.' !in s
  }

  /** Names that survive being joined with dots. */
  predicate Plain(s: string) {
    s != "" && DotFree(s)
  }

  predicate AllPlain(ss: seq<string>) {
    forall i :: 0 <= i < |ss| ==> Plain(ss[i])
  }

  function Join(parts: seq<string>): string {
    if parts == [] then "" else if |parts| == 1 then parts[0] else parts[0] + "." + Join(parts[1..])
  }

  function FirstDot(s: string): (k: nat)
    ensures k <= |s| && (k < |s| ==> s[k] == '.') && forall i :: 0 <= i < k ==> s[i] != '.'
  {
    if s == "" || s[0] == '.' then 0 else 1 + FirstDot(s[1..])
  }

  /** The pieces between dots; there is always at least one. */
  function Split(s: string): (parts: seq<string>)
    ensures |parts| >= 1
    decreases |s|
  {
    var k := FirstDot(s);
    if k == |s| then [s] else [s[..k]] + Split(s[k + 1..])
  }

  /** The first dot of joined names is the one after the first name. */
  lemma JoinHead(parts: seq<string>)
    requires parts != [] && DotFree(parts[0])
    ensures var s := Join(parts);
            && FirstDot(s) == |parts[0]| && s[..|parts[0]|] == parts[0]
            && (|parts| == 1 ==> s == parts[0])
            && (|parts| > 1 ==> |parts[0]| < |s| && s[|parts[0]| + 1..] == Join(parts[1..]))
  {
    var head, s := parts[0], Join(parts);
    forall i | 0 <= i < |head| ensures s[i] != '.' {
      assert s[i] in head;
    }
    if |parts| > 1 {
      assert s == head + ("." + Join(parts[1..]));
      assert s[|head|] == '.';
    }
  }

  lemma {:induction false} SplitJoin(parts: seq<string>)
    requires parts != [] && forall i :: 0 <= i < |parts| ==> DotFree(parts[i])
    ensures Split(Join(parts)) == parts
    decreases |parts|
  {
    JoinHead(parts);
    hide Join, FirstDot, DotFree;
    if |parts| > 1 {
      SplitJoin(parts[1..]);
      assert parts == [parts[0]] + parts[1..];
    }
  }

  // ----- file names -----

  /** The last dot of a name that is not its first character; the whole length if there is none. */
  function StemEnd(name: string): (k: nat)
    ensures k <= |name| && (name != "" ==> k >= 1)
  {
    LastDotBefore(name, |name|)
  }

  function LastDotBefore(name: string, n: nat): (k: nat)
    requires n <= |name|
    ensures k <= |name| && (k < |name| ==> name[k] == '.' && k >= 1)
  {
    if n <= 1 then |name| else if name[n - 1] == '.' then n - 1 else LastDotBefore(name, n - 1)
  }

  function FileStem(name: string): string {
    name[..StemEnd(name)]
  }

  /** The last name with its extension replaced; a path without names has none to replace. */
  function WithExtension(p: Path): Path {
    if p == [] then p else p[..|p| - 1] + [FileStem(p[|p| - 1]) + ".zn"]
  }

  lemma {:induction false} NoLastDot(name: string, n: nat)
    requires n <= |name| && forall i :: 1 <= i < n ==> name[i] != '.'
    ensures LastDotBefore(name, n) == |name|
  {
    if n > 1 {
      NoLastDot(name, n - 1);
    }
  }

  lemma StemOfPlain(name: string)
    requires DotFree(name)
    ensures FileStem(name) == name
  {
    forall i | 1 <= i < |name| ensures name[i] != '.' {
      assert name[i] in name;
    }
    NoLastDot(name, |name|);
  }

  lemma StemOfFile(stem: string)
    requires Plain(stem)
    ensures FileStem(stem + ".zn") == stem
  {
    var name := stem + ".zn";
    assert name[|stem|] == '.' && name[|stem| + 1] == 'z' && name[|stem| + 2] == 'n';
    assert LastDotBefore(name, |stem| + 1) == |stem|;
    assert LastDotBefore(name, |stem| + 2) == |stem|;
    assert StemEnd(name) == |stem|;
  }

  // ----- suggestion -----

  /** The dotted path of the target below a directory; the empty one for the directory's own index file. */
  function Dotted(dir: Path, target: Path): Option<seq<string>> {
    if target == [] || !(dir <= target[..|target| - 1]) then None
    else
      var stem := FileStem(target[|target| - 1]);
      var dirs := target[|dir|..|target| - 1];
      if dirs == [] then Some(if stem == "index" then [] else [stem])
      else Some(dirs + if stem == "index" then [] else [stem])
  }

  function Parent(p: Path): Option<Path> {
    if p == [] then None else Some(p[..|p| - 1])
  }

  /** The first package that the target lies in. */
  function InPackage(packages: seq<Package>, target: Path): (r: Option<string>) {
    if packages == [] then None
    else
      var rest := if packages[0].dir <= target then Dotted(packages[0].dir, target) else None;
      if rest.Some? then Some(Join([packages[0].name] + rest.value)) else InPackage(packages[1..], target)
  }

  function UsePathFor(current: Path, root: Option<Path>, packages: seq<Package>, target: Path): Option<string> {
    if target == [] then None
    else if current <= target then
      var rest := Dotted(current, target);
      if rest.None? then None
      else if rest.value == [] then Some(FileStem(target[|target| - 1]))
      else Some(Join(rest.value))
    else
      var parent := Parent(current);
      var viaParent := if parent.Some? && root != parent && parent.value <= target then
        Dotted(parent.value, target) else None;
      if viaParent.Some? then Some(Join(["super"] + viaParent.value))
      else
        var viaRoot := if root.Some? && root.value <= target then Dotted(root.value, target) else None;
        if viaRoot.Some? then Some(Join(["root"] + viaRoot.value)) else InPackage(packages, target)
  }

  // ----- resolution -----

  /** The directory of the last package of a name. */
  function PackageDir(packages: seq<Package>, name: string): Option<Path> {
    if packages == [] then None
    else if packages[|packages| - 1].name == name then Some(packages[|packages| - 1].dir)
    else PackageDir(packages[..|packages| - 1], name)
  }

  /** Where resolution starts, and how many segments that takes up. */
  function Base(open: Path, root: Path, std: Option<Path>, packages: seq<Package>, head: string): Option<(Path, nat)> {
    if head == "std" then if std.Some? then Some((std.value, 1)) else None
    else if head == "root" then Some((root, 1))
    else if head == "super" then Some((if Parent(open).Some? then Parent(open).value else open, 1))
    else
      var dir := PackageDir(packages, head);
      if dir.Some? then Some((dir.value, 1)) else Some((open, 0))
  }

  function FileOrIndex(files: set<Path>, dir: Path): Option<Path> {
    if WithExtension(dir) in files then Some(WithExtension(dir))
    else if dir + ["index.zn"] in files then Some(dir + ["index.zn"])
    else None
  }

  predicate StartsWithCore(name: string) {
    "core." <= name
  }

  function Resolved(files: set<Path>, open: Path, root: Path, std: Option<Path>, packages: seq<Package>,
      name: string): Option<Path> {
    if StartsWithCore(name) then None
    else
      var segments := Split(name);
      var base := Base(open, root, std, packages, segments[0]);
      if base.None? || "" in segments[base.value.1..] then None
      else FileOrIndex(files, base.value.0 + segments[base.value.1..])
  }

  /** The names between the dots of an import; some may be empty. */
  predicate Segments(parts: seq<string>) {
    parts != [] && forall i :: 0 <= i < |parts| ==> DotFree(parts[i])
  }

  /** The module file of that path, or the index file of that directory; an empty name is nowhere. */
  predicate FoundAt(files: set<Path>, dir: Path, rest: seq<string>, r: Option<Path>) {
    if "" in rest then r == None
    else
      var place := dir + rest;
      && (r.Some? ==> r.value in files && (r.value == WithExtension(place) || r.value == place + ["index.zn"]))
      && (WithExtension(place) in files ==> r == Some(WithExtension(place)))
      && (place + ["index.zn"] in files ==> r.Some?)
  }

  /** The last package of that name. */
  predicate LastNamed(packages: seq<Package>, name: string, i: nat) {
    i < |packages| && packages[i].name == name && forall j :: i < j < |packages| ==> packages[j].name != name
  }

  /** Where an import leads: the three fixed first names and the names of packages lead to their directories, any
      other import is looked up with all its names from the open directory, and the core library is not a file. */
  ghost predicate Lands(files: set<Path>, open: Path, root: Path, std: Option<Path>, packages: seq<Package>,
      parts: seq<string>, r: Option<Path>)
    requires Segments(parts)
  {
    var head, rest := parts[0], parts[1..];
    if head == "core" && rest != [] then r == None
    else if head == "std" then if std.Some? then FoundAt(files, std.value, rest, r) else r == None
    else if head == "root" then FoundAt(files, root, rest, r)
    else if head == "super" then FoundAt(files, if open == [] then open else open[..|open| - 1], rest, r)
    else
      && (forall i: nat :: LastNamed(packages, head, i) ==> FoundAt(files, packages[i].dir, rest, r))
      && ((forall i :: 0 <= i < |packages| ==> packages[i].name != head) ==> FoundAt(files, open, parts, r))
  }

  lemma {:induction false} LastOfName(packages: seq<Package>, name: string)
    ensures forall i: nat :: LastNamed(packages, name, i) ==> PackageDir(packages, name) == Some(packages[i].dir)
    ensures (forall i :: 0 <= i < |packages| ==> packages[i].name != name) ==> PackageDir(packages, name) == None
    decreases |packages|
  {
    if packages != [] && packages[|packages| - 1].name != name {
      var front := packages[..|packages| - 1];
      LastOfName(front, name);
      forall i: nat | LastNamed(packages, name, i) ensures PackageDir(packages, name) == Some(packages[i].dir) {
        assert LastNamed(front, name, i);
      }
    }
  }

  /** There is a last package of every name that some package has. */
  lemma {:induction false} SomeLast(packages: seq<Package>, name: string, k: nat)
    requires k < |packages| && packages[k].name == name
    ensures exists i: nat :: LastNamed(packages, name, i)
    decreases |packages| - k
  {
    if j :| k < j < |packages| && packages[j].name == name {
      SomeLast(packages, name, j);
    } else {
      assert LastNamed(packages, name, k);
    }
  }

  lemma ResolvedLands(files: set<Path>, open: Path, root: Path, std: Option<Path>, packages: seq<Package>,
      parts: seq<string>)
    requires Segments(parts)
    ensures Lands(files, open, root, std, packages, parts, Resolved(files, open, root, std, packages, Join(parts)))
  {
    var name := Join(parts);
    SplitJoin(parts);
    CoreHead(parts);
    LastOfName(packages, parts[0]);
    assert parts[0..] == parts;
    var base := Base(open, root, std, packages, parts[0]);
    ResolvedIs(files, open, root, std, packages, name, parts, base);
    if base.Some? {
      LookupFinds(files, base.value.0, parts[base.value.1..]);
    }
    hide Split, Join, StartsWithCore, PackageDir, Segments, FoundAt, Lookup, Resolved, LastNamed;
  }

  function Lookup(files: set<Path>, dir: Path, rest: seq<string>): Option<Path> {
    if "" in rest then None else FileOrIndex(files, dir + rest)
  }

  lemma ResolvedIs(files: set<Path>, open: Path, root: Path, std: Option<Path>, packages: seq<Package>, name: string,
      parts: seq<string>, base: Option<(Path, nat)>)
    requires parts != [] && Split(name) == parts && base == Base(open, root, std, packages, parts[0])
    ensures Resolved(files, open, root, std, packages, name) ==
            if StartsWithCore(name) || base.None? then None
            else Lookup(files, base.value.0, parts[base.value.1..])
  {
    hide Split, FileOrIndex;
  }

  lemma LookupFinds(files: set<Path>, dir: Path, rest: seq<string>)
    ensures FoundAt(files, dir, rest, Lookup(files, dir, rest))
  {
    hide WithExtension;
  }

  method ResolveImportPath(files: set<Path>, open: Path, root: Path, std: Option<Path>, packages: seq<Package>,
      name: string)
    returns (r: Option<Path>)
    ensures r == Resolved(files, open, root, std, packages, name)
    ensures forall parts :: Segments(parts) && name == Join(parts) ==> Lands(files, open, root, std, packages, parts, r)
  {
    forall parts | Segments(parts) && name == Join(parts)
      ensures Lands(files, open, root, std, packages, parts, Resolved(files, open, root, std, packages, name))
    {
      ResolvedLands(files, open, root, std, packages, parts);
    }
    hide Lands, Segments;
    if StartsWithCore(name) {
      return None;
    }
    var segments := Split(name);
    var base := Base(open, root, std, packages, segments[0]);
    if base.None? {
      return None;
    }
    var (dir, skip) := base.value;
    var rest := segments[skip..];
    var path := dir;
    for i := 0 to |rest|
      invariant path == dir + rest[..i] && "" !in rest[..i]
    {
      if rest[i] == "" {
        return None;
      }
      path := path + [rest[i]];
      assert rest[..i + 1] == rest[..i] + [rest[i]];
    }
    assert rest[..|rest|] == rest;
    r := FileOrIndex(files, path);
  }

  // ----- the round trip -----

  /** A module file: a plain stem with the extension of modules. */
  ghost predicate IsModule(target: Path) {
    target != [] && exists stem :: Plain(stem) && target[|target| - 1] == stem + ".zn"
  }

  function Stem(target: Path): string
    requires target != []
  {
    FileStem(target[|target| - 1])
  }

  /** The directory above an index file is also the stem of a module file. */
  predicate Shadowed(files: set<Path>, target: Path) {
    target != [] && Stem(target) == "index" && WithExtension(target[..|target| - 1]) in files
  }

  lemma ModuleStem(target: Path)
    requires IsModule(target)
    ensures Plain(Stem(target)) && target == target[..|target| - 1] + [Stem(target) + ".zn"]
  {
    var stem :| Plain(stem) && target[|target| - 1] == stem + ".zn";
    StemOfFile(stem);
  }

  /** Below the right directory, the dotted path leads back to the target exactly when no file shadows it. */
  lemma DottedLeadsBack(files: set<Path>, dir: Path, target: Path)
    requires IsModule(target) && target in files && dir <= target[..|target| - 1]
    ensures Dotted(dir, target).Some?
    ensures FileOrIndex(files, dir + Dotted(dir, target).value) == Some(target) <==> !Shadowed(files, target)
  {
    ModuleStem(target);
    var stem := Stem(target);
    var parent := target[..|target| - 1];
    assert parent == dir + parent[|dir|..];
    assert parent[|dir|..] == target[|dir|..|target| - 1];
    if stem == "index" {
      assert dir + Dotted(dir, target).value == parent;
      assert stem + ".zn" == "index.zn";
      if WithExtension(parent) in files {
        ShorterOrSame(parent);
        assert |WithExtension(parent)| != |target|;
      }
    } else {
      var p := dir + Dotted(dir, target).value;
      assert p == parent + [stem];
      StemOfPlain(stem);
      assert p[..|p| - 1] == parent;
      assert WithExtension(p) == target;
    }
  }

  lemma ShorterOrSame(p: Path)
    ensures |WithExtension(p)| == |p|
  {
  }

  /** No directory below `dir` on the way to the target has a dot or an empty name. */
  predicate PlainBelow(dir: Path, target: Path) {
    dir <= target && AllPlain(target[|dir|..if |target| > |dir| then |target| - 1 else |dir|])
  }

  predicate Reserved(packages: seq<Package>, head: string) {
    head == "std" || head == "root" || head == "super" || head == "core" ||
      exists i :: 0 <= i < |packages| && packages[i].name == head
  }

  predicate UniqueNames(packages: seq<Package>) {
    forall i, j :: 0 <= i < j < |packages| ==> packages[i].name != packages[j].name
  }

  predicate OrdinaryNames(packages: seq<Package>) {
    forall i :: 0 <= i < |packages| ==>
      var n := packages[i].name; Plain(n) && n != "std" && n != "root" && n != "super" && n != "core"
  }

  lemma {:induction false} DirOfUnique(packages: seq<Package>, i: nat)
    requires i < |packages| && UniqueNames(packages)
    ensures PackageDir(packages, packages[i].name) == Some(packages[i].dir)
    decreases |packages|
  {
    if i < |packages| - 1 {
      assert packages[i].name != packages[|packages| - 1].name;
      DirOfUnique(packages[..|packages| - 1], i);
    }
  }

  lemma {:induction false} NoSuchPackage(packages: seq<Package>, name: string)
    requires forall i :: 0 <= i < |packages| ==> packages[i].name != name
    ensures PackageDir(packages, name).None?
  {
    if packages != [] {
      NoSuchPackage(packages[..|packages| - 1], name);
    }
  }

  lemma CoreHead(parts: seq<string>)
    requires parts != [] && forall i :: 0 <= i < |parts| ==> DotFree(parts[i])
    ensures StartsWithCore(Join(parts)) <==> parts[0] == "core" && |parts| > 1
  {
    JoinHead(parts);
    CoreIs(Join(parts));
    hide Join, StartsWithCore;
  }

  lemma CoreIs(s: string)
    ensures StartsWithCore(s) <==> FirstDot(s) == 4 < |s| && s[..4] == "core"
  {
    if |s| >= 5 {
      var t := s[..5];
      assert t == s[..4] + [s[4]];
      assert forall i :: 0 <= i < 5 ==> s[i] == t[i];
    }
  }

  /** The path that resolution of some segments arrives at: the first segment may be taken for a place of its
      own. */
  function Arrival(open: Path, root: Path, std: Option<Path>, packages: seq<Package>, parts: seq<string>): Option<Path>
    requires parts != []
  {
    if parts[0] == "core" && |parts| > 1 then None
    else
      var base := Base(open, root, std, packages, parts[0]);
      if base.None? then None else Some(base.value.0 + parts[base.value.1..])
  }

  lemma ResolvesFrom(files: set<Path>, open: Path, root: Path, std: Option<Path>, packages: seq<Package>,
      parts: seq<string>)
    requires parts != [] && AllPlain(parts)
    ensures var place := Arrival(open, root, std, packages, parts);
            Resolved(files, open, root, std, packages, Join(parts)) == if place.None? then None
              else FileOrIndex(files, place.value)
  {
    hide FileOrIndex, Base, Split, Join;
    CoreHead(parts);
    SplitJoin(parts);
    assert forall k: nat :: k <= |parts| ==> "" !in parts[k..];
  }

  /** A path leads to a module file that names it, or whose directory it is if the file is an index that no module
      file beside the directory shadows. */
  predicate Finds(files: set<Path>, place: Path, target: Path)
    requires target != []
  {
    WithExtension(place) == target ||
      (place == target[..|target| - 1] && Stem(target) == "index" && !Shadowed(files, target))
  }

  lemma FindsIff(files: set<Path>, place: Path, target: Path)
    requires IsModule(target) && target in files
    ensures FileOrIndex(files, place) == Some(target) <==> Finds(files, place, target)
  {
    ModuleStem(target);
    var parent := target[..|target| - 1];
    assert "index" + ".zn" == "index.zn";
    if place + ["index.zn"] == target {
      assert (place + ["index.zn"])[..|target| - 1] == place;
      StemOfFile("index");
    }
    ShorterOrSame(place);
    assert place == parent && Stem(target) == "index" ==> place + ["index.zn"] == target;
    hide WithExtension, IsModule;
  }

  /** The directory that a suggestion starts from, with what it puts in front of the dotted path. */
  datatype Start = Start(dir: Path, head: seq<string>)

  predicate Below(dir: Path, target: Path) {
    target != [] && dir <= target[..|target| - 1]
  }

  function PackageStart(packages: seq<Package>, target: Path): Option<Start> {
    if packages == [] then None
    else if Below(packages[0].dir, target) then Some(Start(packages[0].dir, [packages[0].name]))
    else PackageStart(packages[1..], target)
  }

  function StartFor(current: Path, root: Option<Path>, packages: seq<Package>, target: Path): Option<Start> {
    if Below(current, target) then Some(Start(current, []))
    else if current <= target then None
    else if Parent(current).Some? && root != Parent(current) && Below(Parent(current).value, target) then
      Some(Start(Parent(current).value, ["super"]))
    else if root.Some? && Below(root.value, target) then Some(Start(root.value, ["root"]))
    else PackageStart(packages, target)
  }

  /** The segments of a suggestion. */
  function Parts(s: Start, target: Path): seq<string>
    requires Below(s.dir, target)
  {
    var rest := Dotted(s.dir, target).value;
    if s.head == [] && rest == [] then [Stem(target)] else s.head + rest
  }

  lemma {:induction false} PackageStartIs(packages: seq<Package>, target: Path)
    ensures InPackage(packages, target).Some? <==> PackageStart(packages, target).Some?
    ensures target == [] ==> PackageStart(packages, target).None?
    ensures PackageStart(packages, target).Some? ==>
              var s := PackageStart(packages, target).value;
              && Below(s.dir, target) && InPackage(packages, target) == Some(Join(s.head + Dotted(s.dir, target).value))
              && exists i :: 0 <= i < |packages| && s == Start(packages[i].dir, [packages[i].name])
  {
    if packages != [] {
      PackageStartIs(packages[1..], target);
      BelowIs(packages[0].dir, target);
      if !Below(packages[0].dir, target) && PackageStart(packages[1..], target).Some? {
        var i :| 0 <= i < |packages[1..]| &&
          PackageStart(packages[1..], target).value == Start(packages[1..][i].dir, [packages[1..][i].name]);
        assert packages[i + 1] == packages[1..][i];
      }
    }
  }

  lemma BelowIs(dir: Path, target: Path)
    ensures Below(dir, target) <==> dir <= target && Dotted(dir, target).Some?
  {
    if Below(dir, target) {
      assert target[..|target| - 1] <= target;
    }
  }

  lemma StartIs(current: Path, root: Option<Path>, packages: seq<Package>, target: Path)
    ensures UsePathFor(current, root, packages, target).Some? <==> StartFor(current, root, packages, target).Some?
    ensures StartFor(current, root, packages, target).Some? ==>
              var s := StartFor(current, root, packages, target).value;
              Below(s.dir, target) && UsePathFor(current, root, packages, target) == Some(Join(Parts(s, target)))
  {
    hide Dotted, FileStem, Join, Below;
    JoinOne(if target == [] then "" else Stem(target));
    BelowIs(current, target);
    if Parent(current).Some? {
      BelowIs(Parent(current).value, target);
    }
    if root.Some? {
      BelowIs(root.value, target);
    }
    PackageStartIs(packages, target);
    NothingBelowRoot();
    var start, path := StartFor(current, root, packages, target), UsePathFor(current, root, packages, target);
    var parent := Parent(current);
    if Below(current, target) {
      var rest := Dotted(current, target).value;
      assert [] + rest == rest;
      assert path == Some(Join(Parts(start.value, target)));
    } else if current <= target {
    } else if parent.Some? && root != parent && Below(parent.value, target) {
      assert path == Some(Join(Parts(start.value, target)));
    } else if root.Some? && Below(root.value, target) {
      assert path == Some(Join(Parts(start.value, target)));
    } else if start.Some? {
      assert path == InPackage(packages, target);
    }
  }

  lemma NothingBelowRoot()
    ensures forall dir :: !Below(dir, [])
  {
  }

  lemma JoinOne(s: string)
    ensures Join([s]) == s
  {
  }

  /** The names of a suggestion survive being joined and split. */
  predicate PlainNames(s: Start, target: Path) {
    AllPlain(s.head) && Below(s.dir, target) && PlainBelow(s.dir, target)
  }

  lemma PartsPlain(s: Start, target: Path)
    requires IsModule(target) && Below(s.dir, target) && PlainBelow(s.dir, target) && AllPlain(s.head)
    ensures Parts(s, target) != [] && AllPlain(Parts(s, target))
  {
    ModuleStem(target);
    var dirs := target[|s.dir|..|target| - 1];
    assert AllPlain(dirs);
  }

  lemma ShortHead(open: Path, project: Option<Path>, packages: seq<Package>, target: Path)
    ensures var s := StartFor(open, project, packages, target); s.Some? ==> |s.value.head| <= 1
  {
    PackageStartIs(packages, target);
    hide Below;
  }

  /** The suggested import resolves to the file it was suggested for exactly when its segments arrive where that
      file is found. */
  lemma SuggestionResolves(files: set<Path>, open: Path, project: Option<Path>, root: Path, std: Option<Path>,
      packages: seq<Package>, target: Path, s: Start)
    requires IsModule(target) && target in files
    requires StartFor(open, project, packages, target) == Some(s) && PlainNames(s, target)
    ensures Parts(s, target) != [] && UsePathFor(open, project, packages, target).Some?
    ensures var place := Arrival(open, root, std, packages, Parts(s, target));
            Resolved(files, open, root, std, packages, UsePathFor(open, project, packages, target).value)
            == Some(target) <==>
            place.Some? && Finds(files, place.value, target)
  {
    hide Dotted, FileStem, Join, IsModule, FileOrIndex, Base, Resolved, UsePathFor, StartFor, Finds, Arrival;
    StartIs(open, project, packages, target);
    PartsPlain(s, target);
    var parts := Parts(s, target);
    ResolvesFrom(files, open, root, std, packages, parts);
    var place := Arrival(open, root, std, packages, parts);
    if place.Some? {
      FindsIff(files, place.value, target);
    }
  }

  /** The first segment leads to where the suggestion starts: nothing takes it for another place, or what takes it
      is that very directory. */
  predicate Led(open: Path, root: Path, std: Option<Path>, packages: seq<Package>, s: Start, parts: seq<string>)
    requires parts != []
  {
    var base := Base(open, root, std, packages, parts[0]);
    && !(parts[0] == "core" && |parts| > 1)
    && base.Some? && |s.head| <= base.value.1
    && base.value.0 == s.dir + parts[|s.head|..base.value.1]
  }

  /** With at least two segments, and unless the file is the index of a directory itself named index, the suggestion
      resolves to its file exactly when its first segment is led to its start and no module file shadows the
      directory of an index file. */
  lemma SuggestionResolvesIff(files: set<Path>, open: Path, project: Option<Path>, root: Path, std: Option<Path>,
      packages: seq<Package>, target: Path, s: Start)
    requires IsModule(target) && target in files
    requires StartFor(open, project, packages, target) == Some(s) && PlainNames(s, target)
    requires |Parts(s, target)| > 1 && Parts(s, target)[|Parts(s, target)| - 1] != "index"
    ensures UsePathFor(open, project, packages, target).Some?
    ensures Resolved(files, open, root, std, packages, UsePathFor(open, project, packages, target).value)
            == Some(target) <==>
            Led(open, root, std, packages, s, Parts(s, target)) && !Shadowed(files, target)
  {
    hide Dotted, FileStem, Join, IsModule, FileOrIndex, Base, Resolved, UsePathFor, StartFor, Finds, Parts, Shadowed,
         PlainNames;
    PlainStart(s, target);
    var parts := Parts(s, target);
    SuggestionResolves(files, open, project, root, std, packages, target, s);
    ShortHead(open, project, packages, target);
    var base := Base(open, root, std, packages, parts[0]);
    if base.Some? && !(parts[0] == "core" && |parts| > 1) {
      BaseHead(open, root, std, packages, project, target, s);
      PlaceFinds(files, s, target, base.value.0, base.value.1);
    }
  }

  lemma PlainStart(s: Start, target: Path)
    requires IsModule(target) && PlainNames(s, target)
    ensures Below(s.dir, target) && AllPlain(Parts(s, target)) && Parts(s, target) != []
  {
    PartsPlain(s, target);
  }

  /** Only a suggestion from the open directory can have a first segment that nothing takes. */
  lemma BaseHead(open: Path, root: Path, std: Option<Path>, packages: seq<Package>, project: Option<Path>, target: Path,
      s: Start)
    requires StartFor(open, project, packages, target) == Some(s) && Below(s.dir, target) && Parts(s, target) != []
    requires Base(open, root, std, packages, Parts(s, target)[0]).Some?
    ensures |s.head| <= Base(open, root, std, packages, Parts(s, target)[0]).value.1 <= 1
    ensures Base(open, root, std, packages, Parts(s, target)[0]).value.1 == 0 ==>
              Base(open, root, std, packages, Parts(s, target)[0]).value.0 == s.dir == open
  {
    PackageStartIs(packages, target);
    hide Dotted, Below, FileStem;
    if s.head != [] {
      assert Parts(s, target)[0] == s.head[0];
      if s.head != ["super"] && s.head != ["root"] {
        var i :| 0 <= i < |packages| && s == Start(packages[i].dir, [packages[i].name]);
        KnownPackage(packages, i);
      }
    }
  }

  lemma {:induction false} KnownPackage(packages: seq<Package>, i: nat)
    requires i < |packages|
    ensures PackageDir(packages, packages[i].name).Some?
    decreases |packages|
  {
    if packages[|packages| - 1].name != packages[i].name {
      KnownPackage(packages[..|packages| - 1], i);
    }
  }

  /** What the remaining segments find below the directory that takes the first `k` of them. */
  lemma PlaceFinds(files: set<Path>, s: Start, target: Path, base: Path, k: nat)
    requires IsModule(target) && target in files && Below(s.dir, target) && |s.head| <= k <= 1
    requires AllPlain(Parts(s, target)) && |Parts(s, target)| > 1 && Parts(s, target)[|Parts(s, target)| - 1] != "index"
    ensures Finds(files, base + Parts(s, target)[k..], target) <==>
            base == s.dir + Parts(s, target)[|s.head|..k] && !Shadowed(files, target)
  {
    hide *;
    var parts := Parts(s, target);
    var right := s.dir + parts[|s.head|..];
    var from, last := s.dir + parts[|s.head|..k], parts[|parts| - 1];
    PartsAre(s, target);
    SplitTail(s.dir, parts, |s.head|, k);
    SameTail(base, from, parts[k..]);
    LastOf(base, parts, k);
    LastOf(s.dir, parts, |s.head|);
    LastPlain(parts);
    FindsRight(files, base + parts[k..], right, last, target);
  }

  lemma SplitTail(dir: Path, parts: seq<string>, h: nat, k: nat)
    requires h <= k <= |parts|
    ensures dir + parts[h..] == dir + parts[h..k] + parts[k..]
  {
    assert parts[h..] == parts[h..k] + parts[k..];
    assert dir + (parts[h..k] + parts[k..]) == dir + parts[h..k] + parts[k..];
  }

  lemma LastOf(dir: Path, parts: seq<string>, k: nat)
    requires k < |parts|
    ensures var p := dir + parts[k..]; p != [] && p[|p| - 1] == parts[|parts| - 1]
  {
  }

  lemma LastPlain(parts: seq<string>)
    requires AllPlain(parts) && parts != []
    ensures Plain(parts[|parts| - 1])
  {
  }

  /** A path that ends in a plain name finds a module file only where the file's own path is. */
  lemma FindsRight(files: set<Path>, place: Path, right: Path, last: string, target: Path)
    requires IsModule(target) && Plain(last) && last != "index"
    requires place != [] && right != [] && place[|place| - 1] == last && right[|right| - 1] == last
    requires Stem(target) == "index" ==> right == target[..|target| - 1]
    requires Stem(target) != "index" ==> right == target[..|target| - 1] + [Stem(target)]
    ensures Finds(files, place, target) <==> place == right && !Shadowed(files, target)
  {
    ModuleStem(target);
    StemOfPlain(last);
    StemOfFile(last);
    var parent, front := target[..|target| - 1], place[..|place| - 1];
    hide FileStem, IsModule;
    assert WithExtension(place) == front + [last + ".zn"];
    assert place == front + [last] && right == right[..|right| - 1] + [last];
    assert WithExtension(place) == target <==> front == parent && last + ".zn" == Stem(target) + ".zn";
    SameExtension(last, Stem(target));
  }

  lemma SameExtension(a: string, b: string)
    ensures a + ".zn" == b + ".zn" <==> a == b
  {
    if a + ".zn" == b + ".zn" {
      assert a == (a + ".zn")[..|a|] && b == (b + ".zn")[..|b|];
    }
  }

  lemma SameTail(a: Path, b: Path, tail: Path)
    ensures a + tail == b + tail <==> a == b
  {
    if a + tail == b + tail {
      assert |a| == |b|;
      assert a == (a + tail)[..|a|] && b == (b + tail)[..|b|];
    }
  }

  /** The dotted path of a suggestion, and where it leads from its start. */
  lemma PartsAre(s: Start, target: Path)
    requires IsModule(target) && Below(s.dir, target) && |s.head| <= 1 && |Parts(s, target)| > 1
    ensures var right := s.dir + Parts(s, target)[|s.head|..];
            && (Stem(target) == "index" ==> right == target[..|target| - 1])
            && (Stem(target) != "index" ==>
                  right == target[..|target| - 1] + [Stem(target)] &&
                    Parts(s, target)[|Parts(s, target)| - 1] == Stem(target))
  {
    ModuleStem(target);
    var parent := target[..|target| - 1];
    assert parent == s.dir + target[|s.dir|..|target| - 1];
    assert Parts(s, target)[|s.head|..] == Dotted(s.dir, target).value;
  }

  /** A suggestion from the open directory whose first segment is the name of a package resolves to its file exactly
      when the package is the directory of that name. */
  lemma PackageCapturesIff(files: set<Path>, open: Path, project: Option<Path>, root: Path, std: Option<Path>,
      packages: seq<Package>, target: Path)
    requires IsModule(target) && target in files && Below(open, target) && PlainBelow(open, target)
    requires !Shadowed(files, target)
    requires var parts := Parts(Start(open, []), target);
             && |parts| > 1 && parts[|parts| - 1] != "index" && PackageDir(packages, parts[0]).Some?
             && parts[0] != "std" && parts[0] != "root" && parts[0] != "super" && parts[0] != "core"
    ensures UsePathFor(open, project, packages, target).Some?
    ensures Resolved(files, open, root, std, packages, UsePathFor(open, project, packages, target).value)
            == Some(target) <==>
            PackageDir(packages, Parts(Start(open, []), target)[0]) == Some(open + [Parts(Start(open, []), target)[0]])
  {
    var s := Start(open, []);
    hide Parts, Below, Shadowed, Resolved, UsePathFor, IsModule, PlainBelow, PackageDir;
    SuggestionResolvesIff(files, open, project, root, std, packages, target, s);
    var parts := Parts(s, target);
    assert parts[0..1] == [parts[0]];
  }

  /** Names as they should be lead: packages have names of their own, none of them reserved, and the first segment
      from the open directory is neither reserved nor the name of a package. */
  lemma OrdinaryNamesLead(open: Path, project: Option<Path>, root: Path, std: Option<Path>, packages: seq<Package>,
      target: Path, s: Start)
    requires StartFor(open, project, packages, target) == Some(s) && IsModule(target) && PlainNames(s, target)
    requires project.Some? ==> project.value == root
    requires UniqueNames(packages) && OrdinaryNames(packages) && Parts(s, target) != []
    requires s.head == [] ==> !Reserved(packages, Parts(s, target)[0])
    ensures Led(open, root, std, packages, s, Parts(s, target))
  {
    hide Dotted, FileStem, IsModule, Below;
    PackageStartIs(packages, target);
    var parts := Parts(s, target);
    var parent := Parent(open);
    assert parts[|s.head|..|s.head|] == [];
    if Below(open, target) {
      NoSuchPackage(packages, parts[0]);
    } else if parent.Some? && project != parent && Below(parent.value, target) {
      assert s.head == ["super"];
    } else if project.Some? && Below(root, target) {
      assert s.head == ["root"];
    } else {
      var i :| 0 <= i < |packages| && s == Start(packages[i].dir, [packages[i].name]);
      DirOfUnique(packages, i);
    }
  }

  /** A suggestion that is led resolves to exactly its file, unless the file is the index of a directory next to
      which a module file of the same name lies; the index of the open directory is suggested by its own name and
      never shadowed. */
  lemma LedResolves(files: set<Path>, open: Path, project: Option<Path>, root: Path, std: Option<Path>,
      packages: seq<Package>, target: Path, s: Start)
    requires IsModule(target) && target in files
    requires StartFor(open, project, packages, target) == Some(s) && PlainNames(s, target) && Parts(s, target) != []
    requires Led(open, root, std, packages, s, Parts(s, target))
    ensures UsePathFor(open, project, packages, target).Some?
    ensures Resolved(files, open, root, std, packages, UsePathFor(open, project, packages, target).value)
            == Some(target) <==>
            !Shadowed(files, target) || target == open + ["index.zn"]
  {
    hide *;
    PlainStart(s, target);
    SuggestionResolves(files, open, project, root, std, packages, target, s);
    ShortHead(open, project, packages, target);
    LedArrives(open, root, std, packages, project, target, s);
    PartsLead(files, open, project, packages, s, target);
    FindsIff(files, s.dir + Parts(s, target)[|s.head|..], target);
  }

  lemma LedArrives(open: Path, root: Path, std: Option<Path>, packages: seq<Package>, project: Option<Path>,
      target: Path, s: Start)
    requires StartFor(open, project, packages, target) == Some(s) && Below(s.dir, target) && Parts(s, target) != []
    requires Led(open, root, std, packages, s, Parts(s, target)) && |s.head| <= 1
    ensures Arrival(open, root, std, packages, Parts(s, target)) == Some(s.dir + Parts(s, target)[|s.head|..])
  {
    BaseHead(open, root, std, packages, project, target, s);
    hide Parts, Base, StartFor, Below;
    var parts := Parts(s, target);
    SplitTail(s.dir, parts, |s.head|, Base(open, root, std, packages, parts[0]).value.1);
  }

  lemma PartsLead(files: set<Path>, open: Path, project: Option<Path>, packages: seq<Package>, s: Start, target: Path)
    requires IsModule(target) && target in files && StartFor(open, project, packages, target) == Some(s)
    requires Below(s.dir, target) && |s.head| <= 1
    ensures FileOrIndex(files, s.dir + Parts(s, target)[|s.head|..]) == Some(target) <==>
              !Shadowed(files, target) || target == open + ["index.zn"]
  {
    ModuleStem(target);
    var stem := Stem(target);
    var rest := Dotted(s.dir, target).value;
    DottedLeadsBack(files, s.dir, target);
    if target == open + ["index.zn"] {
      OpenIndex(open, project, packages, target);
    }
    if s.head == [] && rest == [] {
      assert s.dir == open by {
        PackageStartIs(packages, target);
      }
      assert stem == "index" && target == open + [stem + ".zn"] && stem + ".zn" == "index.zn";
      var p := open + [stem];
      StemOfPlain(stem);
      assert p[..|p| - 1] == open;
      assert WithExtension(p) == target;
    } else {
      assert Parts(s, target)[|s.head|..] == rest;
    }
  }

  lemma OpenIndex(open: Path, project: Option<Path>, packages: seq<Package>, target: Path)
    requires target == open + ["index.zn"]
    ensures StartFor(open, project, packages, target) == Some(Start(open, [])) && Dotted(open, target) == Some([])
  {
    assert target[..|target| - 1] == open;
    StemOfFile("index");
    assert "index" + ".zn" == "index.zn";
  }

  /** For instance, a package elsewhere takes the suggestion for a file in a directory of its name. */
  lemma PackageCaptures(open: Path, root: Path)
    requires !(["p"] <= open) && !(open <= ["p"]) && open != []
    ensures var packages := [Package("p", ["p"])];
            var target := open + ["p", "x.zn"];
            var files := {target, ["p", "x.zn"]};
            UsePathFor(open, Some(root), packages, target) == Some("p.x") &&
              Resolved(files, open, root, None, packages, "p.x") == Some(["p", "x.zn"])
  {
    var packages := [Package("p", ["p"])];
    var target := open + ["p", "x.zn"];
    var files := {target, ["p", "x.zn"]};
    assert target[|target| - 1] == "x.zn" && target[..|target| - 1] == open + ["p"];
    StemOfFile("x");
    assert "x" + ".zn" == "x.zn";
    assert target[|open|..|target| - 1] == ["p"];
    var parts := ["p", "x"];
    assert ["p"] + ["x"] == parts && parts[1..] == ["x"];
    assert Join(parts) == "p" + "." + "x" == "p.x";
    assert AllPlain(parts);
    assert packages[..0] == [];
    assert Base(open, root, None, packages, "p") == Some((["p"], 1));
    ResolvesFrom(files, open, root, None, packages, parts);
    var q := ["p"] + parts[1..];
    assert q == ["p", "x"];
    StemOfPlain("x");
    assert q[..|q| - 1] == ["p"];
    assert WithExtension(q) == ["p", "x.zn"];
  }
}
