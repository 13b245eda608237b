/**
 How a require() inside a package finds its file: the path is taken relative to the requiring
 file, cleaned, refused when it leaves the package, and tried as it is, as a script and as a
 directory.
 */
module PackagePaths {
  import opened Text

  /** One more part behind a cleaned relative path. */
  function Push(path: seq<string>, part: string): seq<string> {
    if part == "" || part == "." then path
    else if part == ".." && path != [] && path[|path| - 1] != ".." then path[..|path| - 1]
    else path + [part]
  }

  function Walk(parts: seq<string>): seq<string> {
    if parts == [] then [] else Push(Walk(parts[..|parts| - 1]), parts[|parts| - 1])
  }

  /** In a path that starts at the root, there is no way up from it. */
  function WalkRooted(parts: seq<string>): seq<string> {
    if parts == [] then []
    else
      var path := WalkRooted(parts[..|parts| - 1]);
      if parts[|parts| - 1] == ".." && path == [] then path else Push(path, parts[|parts| - 1])
  }

  function Clean(s: string): string {
    if s != "" && s[0] == '/' then "/" + Join(WalkRooted(Split(s, '/')), '/')
    else if Walk(Split(s, '/')) == [] then "."
    else Join(Walk(Split(s, '/')), '/')
  }

  /** The position of the last slash. */
  function LastSlash(s: string): (i: int)
    ensures -1 <= i < |s|
    ensures 0 <= i ==> s[i] == '/'
    ensures forall j | i < j < |s| :: s[j] != '/'
  {
    if s == "" then -1
    else if s[|s| - 1] == '/' then |s| - 1
    else LastSlash(s[..|s| - 1])
  }

  function Joined(from: string, spec: string): string {
    var i := LastSlash(from);
    if i > 0 then from[..i] + "/" + spec else spec
  }

  predicate LeavesPackage(cleaned: string) {
    cleaned == ".." || (|cleaned| >= 3 && cleaned[..3] == "../")
  }

  function Resolve(files: set<string>, from: string, spec: string): Option<string> {
    if spec == "" || spec[0] == '/' then None
    else
      var cleaned := Clean(Joined(from, spec));
      if LeavesPackage(cleaned) then None
      else if cleaned in files then Some(cleaned)
      else if cleaned + ".js" in files then Some(cleaned + ".js")
      else if cleaned + "/index.js" in files then Some(cleaned + "/index.js")
      else None
  }

  // ---- leaving the package ----

  /** How deep a list of parts leads, counted from where it starts. */
  function Depth(parts: seq<string>): int {
    if parts == [] then 0
    else
      var part := parts[|parts| - 1];
      Depth(parts[..|parts| - 1]) + (if part == "" || part == "." then 0 else if part == ".." then -1 else 1)
  }

  /** The deepest point above the start that the parts lead through. */
  function Above(parts: seq<string>): (n: nat)
    ensures n >= -Depth(parts)
  {
    if parts == [] then 0
    else
      var n := Above(parts[..|parts| - 1]);
      if -Depth(parts) > n then -Depth(parts) else n
  }

  lemma {:induction false} AboveMeaning(parts: seq<string>)
    ensures Above(parts) > 0 <==> exists k | 0 <= k <= |parts| :: Depth(parts[..k]) < 0
  {
    if parts != [] {
      var front := parts[..|parts| - 1];
      AboveMeaning(front);
      assert parts[..|parts|] == parts;
      if Above(front) > 0 {
        var k :| 0 <= k <= |front| && Depth(front[..k]) < 0;
        assert parts[..k] == front[..k];
      }
      if Above(parts) == 0 {
        forall k | 0 <= k <= |parts|
          ensures Depth(parts[..k]) >= 0
        {
          if k < |parts| {
            assert parts[..k] == front[..k];
          }
        }
      }
    }
  }

  /** A cleaned relative path: some ways up, then only names. */
  lemma {:induction false} WalkShape(parts: seq<string>)
    ensures var path := Walk(parts);
            && |path| == Depth(parts) + 2 * Above(parts) && Above(parts) <= |path|
            && (forall k | 0 <= k < Above(parts) :: path[k] == "..")
            && (forall k | Above(parts) <= k < |path| :: path[k] != ".." && path[k] != "." && path[k] != "")
  {
    if parts != [] {
      WalkShape(parts[..|parts| - 1]);
    }
  }

  lemma {:induction false} WalkParts(parts: seq<string>)
    requires forall part <- parts :: '/' !in part
    ensures forall part <- Walk(parts) :: '/' !in part && part != ""
  {
    if parts != [] {
      WalkParts(parts[..|parts| - 1]);
    }
  }

  lemma JoinStart(parts: seq<string>)
    requires parts != [] && '/' !in parts[0] && parts[0] != ""
    ensures LeavesPackage(Join(parts, '/')) <==> parts[0] == ".."
  {
    var s, n := Join(parts, '/'), |parts[0]|;
    assert s[..n] == parts[0];
    assert |parts| > 1 ==> |s| > n && s[n] == '/';
    assert n >= 2 ==> s[0] == parts[0][0] && s[1] == parts[0][1];
    assert n >= 3 ==> s[2] == parts[0][2];
  }

  /** A relative path is refused exactly when walking along it leads above the package at some point. */
  lemma RefusedMeaning(s: string)
    requires s == "" || s[0] != '/'
    ensures LeavesPackage(Clean(s)) <==> exists k | 0 <= k <= |Split(s, '/')| :: Depth(Split(s, '/')[..k]) < 0
  {
    var parts := Split(s, '/');
    WalkShape(parts);
    WalkParts(parts);
    AboveMeaning(parts);
    var path := Walk(parts);
    if path != [] {
      assert path[0] in path;
      JoinStart(path);
    }
  }

  // ---- what can be required ----

  /** A name in a path: no separator, and none of the two special ones. */
  predicate IsName(part: string) {
    part != "" && part != "." && part != ".." && '/' !in part
  }

  predicate AreNames(parts: seq<string>) {
    forall part <- parts :: IsName(part)
  }

  function Ups(n: nat): seq<string> {
    seq(n, _ => "..")
  }

  lemma {:induction false} SplitJoined(parts: seq<string>)
    requires parts != [] && forall part <- parts :: '/' !in part
    ensures Split(Join(parts, '/'), '/') == parts
  {
    if |parts| == 1 {
      SplitWhole(parts[0], '/');
    } else {
      SplitAt(parts[0], '/', Join(parts[1..], '/'));
      SplitJoined(parts[1..]);
    }
  }

  lemma {:induction false} JoinConcat(a: seq<string>, b: seq<string>)
    requires a != [] && b != []
    ensures Join(a + b, '/') == Join(a, '/') + "/" + Join(b, '/')
  {
    if |a| > 1 {
      JoinConcat(a[1..], b);
      assert (a + b)[1..] == a[1..] + b;
    } else {
      assert (a + b)[1..] == b;
    }
  }

  /** Names are walked as they are. */
  lemma {:induction false} WalkNames(path: seq<string>, parts: seq<string>)
    requires AreNames(parts)
    ensures Walk(path + parts) == Walk(path) + parts
  {
    if parts == [] {
      assert path + parts == path;
    } else {
      var front, last := parts[..|parts| - 1], parts[|parts| - 1];
      assert parts == front + [last] && last in parts;
      WalkNames(path, front);
      assert (path + parts)[..|path + parts| - 1] == path + front;
    }
  }

  lemma WalkUp(parts: seq<string>, path: seq<string>)
    requires Walk(parts) == path && path != [] && IsName(path[|path| - 1])
    ensures Walk(parts + [".."]) == path[..|path| - 1]
  {
    var more := parts + [".."];
    assert more[..|more| - 1] == parts && more[|more| - 1] == "..";
  }

  /** As many ways up as there are names lead back to the start. */
  lemma {:induction false} WalkBack(names: seq<string>, n: nat)
    requires AreNames(names) && n <= |names|
    ensures Walk(names + Ups(n)) == names[..|names| - n]
  {
    hide Walk, IsName;
    if n == 0 {
      assert names + Ups(0) == [] + names;
      WalkNames([], names);
      WalkNothing();
    } else {
      WalkBack(names, n - 1);
      var path := names[..|names| - (n - 1)];
      assert names[|names| - n] in names;
      WalkUp(names + Ups(n - 1), path);
      assert names + Ups(n) == names + Ups(n - 1) + [".."];
      assert path[..|path| - 1] == names[..|names| - n];
    }
  }

  lemma WalkNothing()
    ensures Walk([]) == []
  {
  }

  lemma {:induction false} LastSlashIn(dir: string, base: string)
    requires '/' !in base
    ensures LastSlash(dir + "/" + base) == |dir|
  {
    var s := dir + "/" + base;
    if base != "" {
      LastSlashIn(dir, base[..|base| - 1]);
      assert s[..|s| - 1] == dir + "/" + base[..|base| - 1];
      assert s[|s| - 1] == base[|base| - 1];
    }
  }

  lemma {:induction false} NoSlash(base: string)
    requires '/' !in base
    ensures LastSlash(base) == -1
  {
    if base != "" {
      NoSlash(base[..|base| - 1]);
    }
  }

  /** What a joined path begins with. */
  lemma JoinHead(parts: seq<string>)
    requires parts != [] && parts[0] != ""
    ensures Join(parts, '/') != "" && Join(parts, '/')[0] == parts[0][0]
  {
  }

  lemma NameHead(names: seq<string>)
    requires names != [] && AreNames(names)
    ensures IsName(names[0])
  {
    assert names[0] in names;
  }

  /** A path taken relative to a file in a directory. */
  lemma JoinedIn(dir: seq<string>, base: string, spec: seq<string>)
    requires dir != [] && AreNames(dir) && IsName(base) && spec != []
    ensures Joined(Join(dir + [base], '/'), Join(spec, '/')) == Join(dir + spec, '/')
  {
    NameHead(dir);
    JoinHead(dir);
    JoinConcat(dir, [base]);
    JoinConcat(dir, spec);
    LastSlashIn(Join(dir, '/'), base);
    hide LastSlash, AreNames, IsName;
    var from, d := Join(dir + [base], '/'), Join(dir, '/');
    assert Join([base], '/') == base;
    hide Join;
    assert from == d + "/" + base && from[..|d|] == d;
  }

  lemma JoinedAtRoot(base: string, spec: seq<string>)
    requires IsName(base)
    ensures Joined(Join([base], '/'), Join(spec, '/')) == Join(spec, '/')
  {
    NoSlash(base);
  }

  /** Where a path leads that goes up from a file's directory to the root and down along some names. */
  lemma JoinedParts(dir: seq<string>, base: string, names: seq<string>)
    requires AreNames(dir) && IsName(base) && names != [] && AreNames(names)
    ensures Joined(Join(dir + [base], '/'), Join(Ups(|dir|) + names, '/')) == Join(dir + Ups(|dir|) + names, '/')
  {
    hide Join, Joined, AreNames, IsName;
    var spec := Ups(|dir|) + names;
    assert dir + spec == dir + Ups(|dir|) + names;
    if dir == [] {
      assert dir + [base] == [base] && dir + spec == spec;
      JoinedAtRoot(base, spec);
    } else {
      JoinedIn(dir, base, spec);
    }
  }

  lemma NoSeparators(dir: seq<string>, names: seq<string>)
    requires AreNames(dir) && AreNames(names)
    ensures forall part <- dir + Ups(|dir|) + names :: '/' !in part
  {
  }

  lemma WalkRoundTrip(dir: seq<string>, names: seq<string>)
    requires AreNames(dir) && AreNames(names)
    ensures Walk(dir + Ups(|dir|) + names) == names
  {
    WalkBack(dir, |dir|);
    WalkNames(dir + Ups(|dir|), names);
    hide Walk, AreNames, Ups;
    assert dir[..0] == [];
  }

  lemma HeadOf(dir: seq<string>, names: seq<string>)
    requires AreNames(dir) && names != [] && AreNames(names)
    ensures var parts := dir + Ups(|dir|) + names;
            parts != [] && IsName(parts[0])
  {
    NameHead(names);
    if dir != [] {
      NameHead(dir);
    }
    hide IsName, AreNames;
    var parts := dir + Ups(|dir|) + names;
    assert parts[0] == if dir == [] then names[0] else dir[0];
  }

  /** Cleaning a path that starts with a name. */
  lemma CleanIs(parts: seq<string>, names: seq<string>)
    requires parts != [] && IsName(parts[0]) && (forall part <- parts :: '/' !in part)
    requires Walk(parts) == names && names != []
    ensures Clean(Join(parts, '/')) == Join(names, '/')
  {
    SplitJoined(parts);
    JoinHead(parts);
    hide Split, Walk, Join, WalkRooted;
  }

  lemma CleanParts(dir: seq<string>, names: seq<string>)
    requires AreNames(dir) && names != [] && AreNames(names)
    ensures Clean(Join(dir + Ups(|dir|) + names, '/')) == Join(names, '/')
  {
    NoSeparators(dir, names);
    WalkRoundTrip(dir, names);
    HeadOf(dir, names);
    hide Walk, Join, AreNames, Ups, Clean;
    CleanIs(dir + Ups(|dir|) + names, names);
  }

  /** Every file of a package can be required from every other one, however deep either lies. */
  lemma RequiredFromAnywhere(files: set<string>, dir: seq<string>, base: string, names: seq<string>)
    requires AreNames(dir) && IsName(base) && names != [] && AreNames(names) && Join(names, '/') in files
    ensures Resolve(files, Join(dir + [base], '/'), Join(Ups(|dir|) + names, '/')) == Some(Join(names, '/'))
  {
    JoinedParts(dir, base, names);
    CleanParts(dir, names);
    NameHead(names);
    JoinStart(names);
    var spec := Ups(|dir|) + names;
    assert spec[0] == if dir == [] then names[0] else "..";
    JoinHead(spec);
    hide Joined, Clean, LeavesPackage, Join, AreNames;
  }

  // ---- what is tried, and in which order ----

  /** The first of some names that is a file. */
  function FirstOf(files: set<string>, names: seq<string>): Option<string> {
    if names == [] then None else if names[0] in files then Some(names[0]) else FirstOf(files, names[1..])
  }

  /** Where a walk from the root of the package ends. */
  function Destination(walk: seq<string>): string {
    if Walk(walk) == [] then "." else Join(Walk(walk), '/')
  }

  /** The walk that a require() in a file asks for: from the file's directory along the parts of the path. */
  lemma WalksAlong(dir: seq<string>, base: string, spec: string)
    requires AreNames(dir) && IsName(base) && spec != "" && spec[0] != '/'
    ensures Split(Joined(Join(dir + [base], '/'), spec), '/') == dir + Split(spec, '/')
  {
    var parts := Split(spec, '/');
    JoinSplit(spec, '/');
    NoSlashes(dir, parts);
    hide Split, Join, Joined, AreNames, IsName;
    if dir == [] {
      assert dir + [base] == [base] && dir + parts == parts;
      JoinedAtRoot(base, parts);
    } else {
      JoinedIn(dir, base, parts);
      SplitJoined(dir + parts);
    }
  }

  lemma NoSlashes(dir: seq<string>, parts: seq<string>)
    requires AreNames(dir) && forall part <- parts :: '/' !in part
    ensures forall part <- dir + parts :: '/' !in part
  {
  }

  lemma RelativeHead(spec: string)
    requires spec != "" && spec[0] != '/'
    ensures Split(spec, '/')[0] != "" && Split(spec, '/')[0][0] != '/'
  {
    var rest := Split(spec[1..], '/');
    assert Split(spec, '/') == [[spec[0]] + rest[0]] + rest[1..];
  }

  lemma JoinedIsRelative(dir: seq<string>, base: string, spec: string)
    requires AreNames(dir) && IsName(base) && spec != "" && spec[0] != '/'
    ensures var s := Joined(Join(dir + [base], '/'), spec);
            s != "" && s[0] != '/'
  {
    JoinSplit(spec, '/');
    RelativeHead(spec);
    if dir == [] {
      assert dir + [base] == [base];
      JoinedAtRoot(base, Split(spec, '/'));
    } else {
      JoinedIn(dir, base, Split(spec, '/'));
      NameHead(dir);
      JoinHead(dir + Split(spec, '/'));
    }
    hide Split, Join, Joined, AreNames;
  }

  /**
   What a require() in any file of a package stands for: nothing, if the walk leads out of the
   package at some point, and else the first that is a file of the destination itself, the
   destination with .js, and index.js in the destination.
   */
  lemma StandsFor(files: set<string>, dir: seq<string>, base: string, spec: string)
    requires AreNames(dir) && IsName(base)
    ensures var r, walk := Resolve(files, Join(dir + [base], '/'), spec), dir + Split(spec, '/');
            if spec == "" || spec[0] == '/' || (exists k | 0 <= k <= |walk| :: Depth(walk[..k]) < 0) then r == None
            else
              var c := Destination(walk);
              r == FirstOf(files, [c, c + ".js", c + "/index.js"])
  {
    if spec != "" && spec[0] != '/' {
      var s := Joined(Join(dir + [base], '/'), spec);
      WalksAlong(dir, base, spec);
      JoinedIsRelative(dir, base, spec);
      RefusedMeaning(s);
      assert Clean(s) == Destination(dir + Split(spec, '/'));
      hide Split, Join, Joined, AreNames, Walk, Destination, Clean, LeavesPackage, Depth;
      var c := Clean(s);
      ThreeNames(files, c, c + ".js", c + "/index.js");
    }
  }

  lemma ThreeNames(files: set<string>, a: string, b: string, c: string)
    ensures FirstOf(files, [a, b, c]) ==
            if a in files then Some(a) else if b in files then Some(b) else if c in files then Some(c) else None
  {
    assert [a, b, c][1..] == [b, c] && [b, c][1..] == [c] && [c][1..] == [];
    assert FirstOf(files, [c]) == if c in files then Some(c) else None;
    assert FirstOf(files, [b, c]) == if b in files then Some(b) else FirstOf(files, [c]);
  }

  /** Nothing is found exactly when the path is refused or none of the three is there. */
  lemma NothingFoundIff(files: set<string>, dir: seq<string>, base: string, spec: string)
    requires AreNames(dir) && IsName(base)
    ensures var walk := dir + Split(spec, '/');
            var c := Destination(walk);
            Resolve(files, Join(dir + [base], '/'), spec) == None <==>
              || spec == "" || spec[0] == '/' || (exists k | 0 <= k <= |walk| :: Depth(walk[..k]) < 0)
              || (c !in files && c + ".js" !in files && c + "/index.js" !in files)
  {
    StandsFor(files, dir, base, spec);
    var c := Destination(dir + Split(spec, '/'));
    ThreeNames(files, c, c + ".js", c + "/index.js");
    hide Split, Join, AreNames, Walk, Destination, Resolve, Depth, FirstOf;
  }

  /** From any file, the way up to the root and down along names stands for a file, a script or a directory. */
  lemma StandsForNames(files: set<string>, dir: seq<string>, base: string, names: seq<string>)
    requires AreNames(dir) && IsName(base) && names != [] && AreNames(names)
    ensures var r, c := Resolve(files, Join(dir + [base], '/'), Join(Ups(|dir|) + names, '/')), Join(names, '/');
            && (c in files ==> r == Some(c))
            && (c !in files && c + ".js" in files ==> r == Some(c + ".js"))
            && (c !in files && c + ".js" !in files && c + "/index.js" in files ==> r == Some(c + "/index.js"))
            && (c !in files && c + ".js" !in files && c + "/index.js" !in files ==> r == None)
  {
    JoinedParts(dir, base, names);
    CleanParts(dir, names);
    NameHead(names);
    JoinStart(names);
    var spec := Ups(|dir|) + names;
    assert spec[0] == if dir == [] then names[0] else "..";
    JoinHead(spec);
    hide Joined, Clean, LeavesPackage, Join, AreNames;
  }

  /** A path from the root cannot leave it: ways up at the root lead nowhere, and names are walked as they are. */
  lemma {:induction false} RootedStays(n: nat, names: seq<string>)
    requires AreNames(names)
    ensures WalkRooted(Ups(n) + names) == names
    decreases n + |names|
  {
    var parts := Ups(n) + names;
    if names != [] {
      var front, last := names[..|names| - 1], names[|names| - 1];
      assert parts[..|parts| - 1] == Ups(n) + front && last in names && names == front + [last];
      RootedStays(n, front);
    } else if n > 0 {
      assert parts[..|parts| - 1] == Ups(n - 1) + [] && parts[|parts| - 1] == "..";
      RootedStays(n - 1, []);
    }
  }
}
