/**
 The module loader of a package: depth first, with a cache of what each file exports, a stack
 of the files being evaluated, and a refusal of circular requires.
 */
module Modules {
  import opened PackagePaths
  import opened Text

  type File = string

  /** A require(): the file whose function makes it, which the path is relative to, and the path. */
  datatype Import = Import(origin: File, spec: string)

  /**
   A module: whether it compiles, the requires made in order during its evaluation, by itself or
   by functions of other modules that it calls, and whether it throws in the end.
   */
  datatype Body = Body(compiles: bool, imports: seq<Import>, throws: bool)

  type Package = map<File, Body>

  // ---- what it means that a file can be loaded ----

  /** The file itself is in order: present, compiling, not throwing, and finding what it requires. */
  predicate Fine(pkg: Package, f: File) {
    && f in pkg && pkg[f].compiles && !pkg[f].throws
    && (forall imp <- pkg[f].imports :: Resolve(pkg.Keys, imp.origin, imp.spec).Some?)
  }

  /** The evaluation of f requires g directly. */
  predicate Needs(pkg: Package, f: File, g: File) {
    f in pkg && exists imp <- pkg[f].imports :: Resolve(pkg.Keys, imp.origin, imp.spec) == Some(g)
  }

  /** A chain of files each of which requires the next. */
  ghost predicate Chain(pkg: Package, p: seq<File>) {
    p != [] && forall k | 0 <= k < |p| - 1 :: Needs(pkg, p[k], p[k + 1])
  }

  ghost predicate NoDuplicates(p: seq<File>) {
    forall j, k | 0 <= j < k < |p| :: p[j] != p[k]
  }

  /** Something goes wrong at the end of a chain: a file that is not in order, or a circle. */
  ghost predicate DeadEnd(pkg: Package, p: seq<File>) {
    Chain(pkg, p) && (!Fine(pkg, p[|p| - 1]) || !NoDuplicates(p))
  }

  /** Everything a file reaches is in order, and it reaches no circle. */
  ghost predicate Loadable(pkg: Package, f: File) {
    forall p | Chain(pkg, p) && p[0] == f :: Fine(pkg, p[|p| - 1]) && NoDuplicates(p)
  }

  lemma DeadEndMeaning(pkg: Package, p: seq<File>)
    requires DeadEnd(pkg, p)
    ensures !Loadable(pkg, p[0])
  {
  }

  // ---- the cache ----

  /** Files in the order in which their evaluation ended: each after everything it requires. */
  ghost predicate Ordered(pkg: Package, order: seq<File>) {
    && NoDuplicates(order)
    && (forall k | 0 <= k < |order| :: Fine(pkg, order[k]))
    && (forall k, g | 0 <= k < |order| && Needs(pkg, order[k], g) :: g in order[..k])
  }

  lemma OrderedAppend(pkg: Package, order: seq<File>, f: File)
    requires Ordered(pkg, order) && Fine(pkg, f) && f !in order
    requires forall g | Needs(pkg, f, g) :: g in order
    ensures Ordered(pkg, order + [f])
  {
    hide Fine, Needs;
    var more := order + [f];
    forall k, g | 0 <= k < |more| && Needs(pkg, more[k], g)
      ensures g in more[..k]
    {
      assert k < |order| ==> more[..k] == order[..k];
      assert k == |order| ==> more[..k] == order;
    }
  }

  /** A chain that starts in the cache stays there and moves to earlier files at every step. */
  lemma {:induction false} ChainDescends(pkg: Package, order: seq<File>, p: seq<File>, k: nat)
    requires Ordered(pkg, order) && Chain(pkg, p) && p[0] in order && k < |p|
    ensures exists at: seq<nat> :: Descends(order, p, at, k)
  {
    hide Fine, Needs;
    if k == 0 {
      var i :| 0 <= i < |order| && order[i] == p[0];
      assert Descends(order, p, [i], 0);
    } else {
      ChainDescends(pkg, order, p, k - 1);
      var at :| Descends(order, p, at, k - 1);
      assert Needs(pkg, p[k - 1], p[k - 1 + 1]);
      var i := at[k - 1];
      assert p[k] in order[..i];
      var j :| 0 <= j < i && order[..i][j] == p[k];
      assert Descends(order, p, at + [j], k);
    }
  }

  /** Positions of the first k + 1 files of a chain, each before the last. */
  ghost predicate Descends(order: seq<File>, p: seq<File>, at: seq<nat>, k: nat) {
    && k < |p| && |at| == k + 1
    && (forall i | 0 <= i <= k :: at[i] < |order| && order[at[i]] == p[i])
    && (forall i, j | 0 <= i < j <= k :: at[j] < at[i])
  }

  lemma CachedLoadable(pkg: Package, order: seq<File>, f: File)
    requires Ordered(pkg, order) && f in order
    ensures Loadable(pkg, f)
  {
    hide Fine, Needs;
    forall p | Chain(pkg, p) && p[0] == f
      ensures Fine(pkg, p[|p| - 1]) && NoDuplicates(p)
    {
      ChainDescends(pkg, order, p, |p| - 1);
      var at :| Descends(order, p, at, |p| - 1);
      forall j, k | 0 <= j < k < |p|
        ensures p[j] != p[k]
      {
        assert at[k] < at[j];
      }
    }
  }

  // ---- the stack ----

  lemma ChainAppend(pkg: Package, p: seq<File>, g: File)
    requires p != [] ==> Chain(pkg, p) && Needs(pkg, p[|p| - 1], g)
    ensures Chain(pkg, p + [g])
  {
    hide Needs;
    var q := p + [g];
    forall k | 0 <= k < |q| - 1
      ensures Needs(pkg, q[k], q[k + 1])
    {
      assert k < |p| - 1 ==> Needs(pkg, p[k], p[k + 1]);
    }
  }

  lemma Repeats(p: seq<File>, g: File)
    requires g in p
    ensures !NoDuplicates(p + [g])
  {
    var j :| 0 <= j < |p| && p[j] == g;
    assert (p + [g])[j] == (p + [g])[|p|];
  }

  lemma Smaller(pkg: Package, stack: seq<File>, f: File)
    requires f in pkg && f !in stack
    ensures Unvisited(pkg, stack + [f]) < Unvisited(pkg, stack)
  {
    assert f in Unvisited(pkg, stack) && f !in Unvisited(pkg, stack + [f]);
    assert Unvisited(pkg, stack + [f]) <= Unvisited(pkg, stack);
  }

  function Unvisited(pkg: Package, stack: seq<File>): set<File> {
    set f | f in pkg && f !in stack
  }

  predicate IsRelative(spec: string) {
    (|spec| >= 2 && spec[..2] == "./") || (|spec| >= 3 && spec[..3] == "../")
  }

  /** The file that is asked for: an entry file by its name, or what a require() made in a file stands for. */
  function Target(pkg: Package, from: Option<File>, spec: string): Option<File> {
    match from
    case None => if IsRelative(spec) then None else Some(spec)
    case Some(origin) => Resolve(pkg.Keys, origin, spec)
  }

  /** An entry file is asked for by its name; a relative path has nothing to be relative to. */
  lemma EntryNames(pkg: Package, rest: string)
    ensures Target(pkg, None, "./" + rest) == None && Target(pkg, None, "../" + rest) == None
    ensures (forall tail :: rest != "./" + tail && rest != "../" + tail) ==> Target(pkg, None, rest) == Some(rest)
  {
    assert ("./" + rest)[..2] == "./" && ("../" + rest)[..3] == "../";
    if IsRelative(rest) {
      assert |rest| >= 2 && rest[..2] == "./" ==> rest == "./" + rest[2..];
      assert |rest| >= 3 && rest[..3] == "../" ==> rest == "../" + rest[3..];
    }
  }

  /**
   Where the stack is when something is asked for: a chain whose last module is being evaluated
   and makes this require, or empty, when anything may be asked for.
   */
  ghost predicate At(pkg: Package, stack: seq<File>, from: Option<File>, spec: string) {
    && NoDuplicates(stack)
    && (stack != [] ==>
          && Chain(pkg, stack) && stack[|stack| - 1] in pkg
          && from.Some? && Import(from.value, spec) in pkg[stack[|stack| - 1]].imports)
  }

  /**
   The cache is filled dependency first, and never with a file under evaluation. Exports stand
   for the evaluations that made them, so those of different files are different.
   */
  ghost predicate Sound(pkg: Package, cache: map<File, nat>, order: seq<File>, stack: seq<File>, made: nat) {
    && Ordered(pkg, order)
    && (forall f :: f in cache <==> f in order)
    && (forall f <- stack :: f !in cache)
    && (forall f <- cache :: cache[f] < made)
    && (forall f, g | f in cache && g in cache && f != g :: cache[f] != cache[g])
  }

  /** Nothing cached is lost or replaced, and new files come after the old ones. */
  ghost predicate Extends(
    cache0: map<File, nat>, order0: seq<File>, made0: nat, cache: map<File, nat>, order: seq<File>, made: nat)
  {
    && order0 <= order && made0 <= made
    && (forall f <- cache0 :: f in cache && cache[f] == cache0[f])
  }

  lemma ExtendsTrans(
    c0: map<File, nat>, o0: seq<File>, m0: nat, c1: map<File, nat>, o1: seq<File>, m1: nat,
    c2: map<File, nat>, o2: seq<File>, m2: nat)
    requires Extends(c0, o0, m0, c1, o1, m1) && Extends(c1, o1, m1, c2, o2, m2)
    ensures Extends(c0, o0, m0, c2, o2, m2)
  {
  }

  lemma ExtendsSelf(c: map<File, nat>, o: seq<File>, m: nat)
    ensures Extends(c, o, m, c, o, m)
  {
  }

  /** The first n requires of a module have been answered. */
  ghost predicate FirstLoaded(pkg: Package, cache: map<File, nat>, target: File, n: nat)
    requires target in pkg && n <= |pkg[target].imports|
  {
    forall k | 0 <= k < n ::
      var r := Resolve(pkg.Keys, pkg[target].imports[k].origin, pkg[target].imports[k].spec);
      r.Some? && r.value in cache
  }

  lemma NoneLoaded(pkg: Package, cache: map<File, nat>, target: File)
    requires target in pkg
    ensures FirstLoaded(pkg, cache, target, 0)
  {
  }

  lemma OneMoreLoaded(
    pkg: Package, c0: map<File, nat>, o0: seq<File>, m0: nat, c1: map<File, nat>, o1: seq<File>, m1: nat,
    target: File, n: nat)
    requires target in pkg && n < |pkg[target].imports| && FirstLoaded(pkg, c0, target, n)
    requires Extends(c0, o0, m0, c1, o1, m1)
    requires var r := Resolve(pkg.Keys, pkg[target].imports[n].origin, pkg[target].imports[n].spec);
             r.Some? && r.value in c1
    ensures FirstLoaded(pkg, c1, target, n + 1)
  {
    hide Resolve;
  }

  /** A file whose requires are all cached joins the cache with exports of its own. */
  lemma Complete(pkg: Package, cache: map<File, nat>, order: seq<File>, stack: seq<File>, made: nat, target: File)
    requires Sound(pkg, cache, order, stack + [target], made)
    requires target in pkg && pkg[target].compiles && !pkg[target].throws && target !in stack
    requires FirstLoaded(pkg, cache, target, |pkg[target].imports|)
    ensures Sound(pkg, cache[target := made], order + [target], stack, made + 1)
    ensures Extends(cache, order, made, cache[target := made], order + [target], made + 1)
  {
    assert target in stack + [target];
    hide Resolve, Ordered;
    assert forall f <- stack :: f in stack + [target];
    OrderedAppend(pkg, order, target);
  }

  lemma Pushed(pkg: Package, cache: map<File, nat>, order: seq<File>, stack: seq<File>, made: nat, target: File)
    requires Sound(pkg, cache, order, stack, made) && target !in cache
    ensures Sound(pkg, cache, order, stack + [target], made)
  {
    hide Ordered;
  }

  lemma Popped(pkg: Package, cache: map<File, nat>, order: seq<File>, stack: seq<File>, made: nat, target: File)
    requires Sound(pkg, cache, order, stack + [target], made)
    ensures Sound(pkg, cache, order, stack, made)
  {
    hide Ordered;
    assert forall f <- stack :: f in stack + [target];
  }

  /** f leads to g through requires. */
  ghost predicate Reaches(pkg: Package, f: File, g: File) {
    exists p :: Chain(pkg, p) && p[0] == f && p[|p| - 1] == g
  }

  /** f leads back to itself. */
  ghost predicate OnCircle(pkg: Package, f: File) {
    exists p :: Chain(pkg, p) && |p| > 1 && p[0] == f && p[|p| - 1] == f
  }

  lemma ChainParts(pkg: Package, p: seq<File>, j: nat, k: nat)
    requires Chain(pkg, p) && j < k <= |p|
    ensures Chain(pkg, p[j..k])
  {
    hide Needs;
    var q := p[j..k];
    forall i | 0 <= i < |q| - 1
      ensures Needs(pkg, q[i], q[i + 1])
    {
      assert Needs(pkg, p[j + i], p[j + i + 1]);
    }
  }

  lemma ChainJoin(pkg: Package, p: seq<File>, q: seq<File>)
    requires Chain(pkg, p) && Chain(pkg, q) && p[|p| - 1] == q[0]
    ensures Chain(pkg, p + q[1..])
  {
    hide Needs;
    var r := p + q[1..];
    forall i | 0 <= i < |r| - 1
      ensures Needs(pkg, r[i], r[i + 1])
    {
      if i < |p| - 1 {
        assert Needs(pkg, p[i], p[i + 1]);
      } else {
        assert r[i] == q[i - (|p| - 1)] && r[i + 1] == q[i - (|p| - 1) + 1];
        assert Needs(pkg, q[i - (|p| - 1)], q[i - (|p| - 1) + 1]);
      }
    }
  }

  lemma CircleRepeats(pkg: Package, f: File, g: File)
    requires Reaches(pkg, f, g) && OnCircle(pkg, g)
    ensures exists r :: Chain(pkg, r) && r[0] == f && !NoDuplicates(r)
  {
    hide Needs;
    var p :| Chain(pkg, p) && p[0] == f && p[|p| - 1] == g;
    var c :| Chain(pkg, c) && |c| > 1 && c[0] == g && c[|c| - 1] == g;
    ChainJoin(pkg, p, c);
    var r := p + c[1..];
    assert r[|p| - 1] == g && r[|r| - 1] == g && r[0] == f;
  }

  lemma RepeatCircles(pkg: Package, p: seq<File>, j: nat, k: nat)
    requires Chain(pkg, p) && j < k < |p| && p[j] == p[k]
    ensures Reaches(pkg, p[0], p[j]) && OnCircle(pkg, p[j])
  {
    hide Needs;
    ChainParts(pkg, p, j, k + 1);
    ChainParts(pkg, p, 0, j + 1);
    assert p[j..k + 1][0] == p[j] && p[j..k + 1][k - j] == p[k];
    assert p[0..j + 1][0] == p[0] && p[0..j + 1][j] == p[j];
  }

  /**
   Loadable in the usual words: every file reached is there, compiles, does not throw and finds
   what it requires, and none of them is on a circle.
   */
  lemma LoadableMeaning(pkg: Package, f: File)
    ensures Loadable(pkg, f) <==>
              forall g | Reaches(pkg, f, g) ::
                && g in pkg && pkg[g].compiles && !pkg[g].throws
                && (forall imp <- pkg[g].imports :: Resolve(pkg.Keys, imp.origin, imp.spec).Some?)
                && !OnCircle(pkg, g)
  {
    assert forall g :: Fine(pkg, g) <==>
        && g in pkg && pkg[g].compiles && !pkg[g].throws
        && (forall imp <- pkg[g].imports :: Resolve(pkg.Keys, imp.origin, imp.spec).Some?);
    hide Fine, Needs;
    if Loadable(pkg, f) {
      forall g | Reaches(pkg, f, g)
        ensures Fine(pkg, g) && !OnCircle(pkg, g)
      {
        if OnCircle(pkg, g) {
          CircleRepeats(pkg, f, g);
        }
      }
    }
    if forall g | Reaches(pkg, f, g) :: Fine(pkg, g) && !OnCircle(pkg, g) {
      forall p | Chain(pkg, p) && p[0] == f
        ensures Fine(pkg, p[|p| - 1]) && NoDuplicates(p)
      {
        assert Reaches(pkg, f, p[|p| - 1]);
        forall j, k | 0 <= j < k < |p|
          ensures p[j] != p[k]
        {
          if p[j] == p[k] {
            RepeatCircles(pkg, p, j, k);
          }
        }
      }
    }
  }

  /** Everything that was cached since is reachable from f. */
  ghost predicate OnlyNew(pkg: Package, before: map<File, nat>, after: map<File, nat>, f: File) {
    forall g <- after | g !in before :: Reaches(pkg, f, g)
  }

  lemma NothingNew(pkg: Package, cache: map<File, nat>, f: File)
    ensures OnlyNew(pkg, cache, cache, f)
  {
  }

  lemma NewItself(pkg: Package, before: map<File, nat>, after: map<File, nat>, f: File, exports: nat)
    requires OnlyNew(pkg, before, after, f)
    ensures OnlyNew(pkg, before, after[f := exports], f)
  {
    assert Chain(pkg, [f]) && [f][0] == f;
    hide Chain;
  }

  lemma NewThrough(pkg: Package, c0: map<File, nat>, c1: map<File, nat>, c2: map<File, nat>, f: File, g: File)
    requires OnlyNew(pkg, c0, c1, f) && OnlyNew(pkg, c1, c2, g) && Needs(pkg, f, g)
    ensures OnlyNew(pkg, c0, c2, f)
  {
    forall h <- c2 | h !in c0
      ensures Reaches(pkg, f, h)
    {
      if h !in c1 {
        ReachesThrough(pkg, f, g, h);
      }
    }
  }

  lemma ReachesThrough(pkg: Package, f: File, g: File, h: File)
    requires Needs(pkg, f, g) && Reaches(pkg, g, h)
    ensures Reaches(pkg, f, h)
  {
    assert Chain(pkg, [f, g]);
    hide Needs;
    var q :| Chain(pkg, q) && q[0] == g && q[|q| - 1] == h;
    ChainJoin(pkg, [f, g], q);
    assert ([f, g] + q[1..])[0] == f;
  }

  // ---- what the scripts see ----

  /**
   What the requires of one evaluation yielded, one after the other, and how many files had been
   evaluated when it began and when each of them returned.
   */
  datatype Sight = Sight(start: nat, marks: seq<nat>, values: seq<nat>)

  /**
   The k-th require asked for a file, which was loaded just then, with what it needs and nothing
   else, unless it was cached; it yielded what the file evaluated last of all exports.
   */
  ghost predicate SawAt(
    pkg: Package, cache: map<File, nat>, order: seq<File>, imp: Import, from: nat, to: nat, value: nat)
  {
    && from <= to <= |order| && to > 0
    && order[to - 1] in cache && value == cache[order[to - 1]]
    && var r := Resolve(pkg.Keys, imp.origin, imp.spec);
       && r.Some? && r.value in order[..to]
       && (r.value in order[..from] ==> to == from)
       && (forall j | from <= j < to :: Reaches(pkg, r.value, order[j]))
  }

  function Mark(v: Sight, k: nat): nat
    requires k <= |v.marks|
  {
    if k == 0 then v.start else v.marks[k - 1]
  }

  ghost predicate Saw(pkg: Package, cache: map<File, nat>, order: seq<File>, f: File, v: Sight, n: nat) {
    && f in pkg && n <= |pkg[f].imports| && |v.marks| == |v.values| == n && v.start <= |order|
    && forall k | 0 <= k < n ::
         SawAt(pkg, cache, order, pkg[f].imports[k], Mark(v, k), Mark(v, k + 1), v.values[k])
  }

  ghost predicate AllSaw(pkg: Package, cache: map<File, nat>, order: seq<File>, sights: map<File, Sight>) {
    forall f <- order :: f in sights && f in pkg && Saw(pkg, cache, order, f, sights[f], |pkg[f].imports|)
  }

  /** What was handed over last comes from the file evaluated last. */
  predicate LastTold(cache: map<File, nat>, order: seq<File>, peek: nat) {
    order != [] ==> order[|order| - 1] in cache && peek == cache[order[|order| - 1]]
  }

  lemma SawAtStays(
    pkg: Package, c0: map<File, nat>, o0: seq<File>, m0: nat, c1: map<File, nat>, o1: seq<File>, m1: nat,
    imp: Import, from: nat, to: nat, value: nat)
    requires SawAt(pkg, c0, o0, imp, from, to, value) && Extends(c0, o0, m0, c1, o1, m1)
    ensures SawAt(pkg, c1, o1, imp, from, to, value)
  {
    hide Resolve, Reaches;
    assert forall j | 0 <= j < |o0| :: o1[j] == o0[j];
    assert o1[..to] == o0[..to] && o1[..from] == o0[..from];
  }

  lemma SawStays(
    pkg: Package, c0: map<File, nat>, o0: seq<File>, m0: nat, c1: map<File, nat>, o1: seq<File>, m1: nat,
    f: File, v: Sight, n: nat)
    requires Saw(pkg, c0, o0, f, v, n) && Extends(c0, o0, m0, c1, o1, m1)
    ensures Saw(pkg, c1, o1, f, v, n)
  {
    assert |o0| <= |o1|;
    hide SawAt, Extends;
    forall k | 0 <= k < n
      ensures SawAt(pkg, c1, o1, pkg[f].imports[k], Mark(v, k), Mark(v, k + 1), v.values[k])
    {
      SawAtStays(pkg, c0, o0, m0, c1, o1, m1, pkg[f].imports[k],
                 Mark(v, k), Mark(v, k + 1), v.values[k]);
    }
  }

  /** One more require has returned. */
  lemma SawNext(
    pkg: Package, c0: map<File, nat>, o0: seq<File>, m0: nat, c1: map<File, nat>, o1: seq<File>, m1: nat,
    f: File, v: Sight, n: nat, value: nat)
    requires Saw(pkg, c0, o0, f, v, n) && Extends(c0, o0, m0, c1, o1, m1) && n < |pkg[f].imports|
    requires |o0| == Mark(v, n)
    requires SawAt(pkg, c1, o1, pkg[f].imports[n], |o0|, |o1|, value)
    ensures Saw(pkg, c1, o1, f, Sight(v.start, v.marks + [|o1|], v.values + [value]), n + 1)
  {
    SawStays(pkg, c0, o0, m0, c1, o1, m1, f, v, n);
    hide SawAt, Extends;
    var v' := Sight(v.start, v.marks + [|o1|], v.values + [value]);
    assert forall k | 0 <= k <= n :: Mark(v', k) == Mark(v, k);
    assert Mark(v', n + 1) == |o1|;
  }

  /** What a successful require has seen. */
  lemma SeesLast(
    pkg: Package, c0: map<File, nat>, o0: seq<File>, m0: nat, c1: map<File, nat>, o1: seq<File>, m1: nat,
    stack: seq<File>, imp: Import, peek: nat)
    requires Sound(pkg, c0, o0, stack, m0) && Sound(pkg, c1, o1, stack, m1) && Extends(c0, o0, m0, c1, o1, m1)
    requires LastTold(c1, o1, peek)
    requires var r := Resolve(pkg.Keys, imp.origin, imp.spec);
             r.Some? && r.value in c1 && OnlyNew(pkg, c0, c1, r.value) && (r.value in c0 ==> o1 == o0)
    ensures SawAt(pkg, c1, o1, imp, |o0|, |o1|, peek)
  {
    hide Sound, Resolve, Reaches, Extends, OnlyNew;
    var target := Resolve(pkg.Keys, imp.origin, imp.spec).value;
    CachedIffOrdered(pkg, c0, o0, stack, m0, target);
    CachedIffOrdered(pkg, c1, o1, stack, m1, target);
    Prefix(c0, o0, m0, c1, o1, m1);
    assert o1[..|o1|] == o1;
    forall j | |o0| <= j < |o1|
      ensures Reaches(pkg, target, o1[j])
    {
      NewReached(pkg, c0, o0, m0, c1, o1, m1, stack, target, j);
    }
  }

  lemma Prefix(c0: map<File, nat>, o0: seq<File>, m0: nat, c1: map<File, nat>, o1: seq<File>, m1: nat)
    requires Extends(c0, o0, m0, c1, o1, m1)
    ensures |o0| <= |o1| && o1[..|o0|] == o0
  {
  }

  lemma CachedIffOrdered(pkg: Package, cache: map<File, nat>, order: seq<File>, stack: seq<File>, made: nat, f: File)
    requires Sound(pkg, cache, order, stack, made)
    ensures f in cache <==> f in order
  {
  }

  lemma NewReached(
    pkg: Package, c0: map<File, nat>, o0: seq<File>, m0: nat, c1: map<File, nat>, o1: seq<File>, m1: nat,
    stack: seq<File>, target: File, j: nat)
    requires Sound(pkg, c0, o0, stack, m0) && Sound(pkg, c1, o1, stack, m1) && Extends(c0, o0, m0, c1, o1, m1)
    requires OnlyNew(pkg, c0, c1, target) && |o0| <= j < |o1|
    ensures Reaches(pkg, target, o1[j])
  {
    CachedIffOrdered(pkg, c0, o0, stack, m0, o1[j]);
    CachedIffOrdered(pkg, c1, o1, stack, m1, o1[j]);
    assert NoDuplicates(o1);
    Prefix(c0, o0, m0, c1, o1, m1);
    hide Sound, Reaches, Extends;
    assert forall k | 0 <= k < |o0| :: o0[k] == o1[..|o0|][k] == o1[k];
  }

  /** A file under evaluation is not yet among the evaluated ones. */
  lemma UnderWay(pkg: Package, cache: map<File, nat>, order: seq<File>, stack: seq<File>, made: nat, f: File)
    requires Sound(pkg, cache, order, stack, made) && f in stack
    ensures f !in order
  {
    hide Ordered;
  }

  lemma AllSawStays(
    pkg: Package, c0: map<File, nat>, o0: seq<File>, m0: nat, c1: map<File, nat>, o1: seq<File>, m1: nat,
    sights: map<File, Sight>, f: File, v: Sight)
    requires AllSaw(pkg, c0, o0, sights) && Extends(c0, o0, m0, c1, o1, m1) && o1 == o0 + [f] && f in pkg
    requires Saw(pkg, c0, o0, f, v, |pkg[f].imports|) && f !in o0
    ensures AllSaw(pkg, c1, o1, sights[f := v])
  {
    hide Saw, Extends;
    forall g <- o1
      ensures g in sights[f := v] && g in pkg && Saw(pkg, c1, o1, g, sights[f := v][g], |pkg[g].imports|)
    {
      SawStays(pkg, c0, o0, m0, c1, o1, m1, g, sights[f := v][g], |pkg[g].imports|);
    }
  }

  class HooksEnv {
    const pkg: Package
    var cache: map<File, nat>  // what each file exports, by number
    ghost var order: seq<File> // the cached files in the order in which they got there
    ghost var sights: map<File, Sight>
    var stack: seq<File>
    var peek: nat              // the last exports that were handed over
    var made: nat              // how many module objects have been created

    constructor (pkg: Package)
      ensures this.pkg == pkg && Valid() && stack == [] && order == [] && cache == map[]
    {
      this.pkg := pkg;
      cache, order, stack, peek, made, sights := map[], [], [], 0, 0, map[];
    }

    ghost predicate Valid()
      reads this
    {
      && Sound(pkg, cache, order, stack, made)
      && LastTold(cache, order, peek) && AllSaw(pkg, cache, order, sights)
    }

    ghost predicate Grown(cache0: map<File, nat>, order0: seq<File>, made0: nat)
      reads this
    {
      Extends(cache0, order0, made0, cache, order, made)
    }

    /** When the evaluation of a file began. */
    ghost predicate BeganAt(f: File, start: nat)
      reads this
    {
      f in sights && sights[f].start == start
    }

    /**
     Loads one file. Whatever happens, the stack is as before and what was cached stays cached
     with the same exports; the files added follow their own requires and are all reachable
     from the file asked for. A failure means that some chain of requires, continuing the ones
     under evaluation, cannot be completed.
     */
    method Load(from: Option<File>, spec: string) returns (ok: bool, exports: nat)
      requires Valid() && At(pkg, stack, from, spec)
      modifies this
      ensures Valid() && stack == old(stack) && Grown(old(cache), old(order), old(made))
      ensures ok ==>
                && Target(pkg, from, spec).Some?
                && var target := Target(pkg, from, spec).value;
                   && target in cache && cache[target] == exports
                   && (if target in old(cache) then order == old(order) else BeganAt(target, |old(order)|))
                   && peek == if target in old(cache) then old(peek) else exports
      ensures !ok ==> Target(pkg, from, spec) == None || GoesOnBadly(pkg, stack, Target(pkg, from, spec).value)
      ensures if Target(pkg, from, spec) == None then cache == old(cache)
              else OnlyNew(pkg, old(cache), cache, Target(pkg, from, spec).value)
      decreases Unvisited(pkg, stack), 1
    {
      hide Ordered, DeadEnd, Chain, NoDuplicates, Needs, Fine, Sound, Extends, FirstLoaded, OnlyNew;
      hide LastTold, AllSaw, Saw;
      ExtendsSelf(cache, order, made);
      var target := spec;
      if from.Some? {
        var resolved := Resolve(pkg.Keys, from.value, spec);
        if resolved == None {
          return false, 0;
        }
        target := resolved.value;
      } else if IsRelative(spec) {
        return false, 0;
      }
      NothingNew(pkg, cache, target);
      if target in cache {
        return true, cache[target];
      }
      NextOnPath(pkg, stack, from, spec, target);
      if target in stack {
        Circular(pkg, stack, target);
        return false, 0;
      }
      if target !in pkg || !pkg[target].compiles {
        NotFine(pkg, stack + [target]);
        return false, 0;
      }
      ok, exports := Evaluate(target);
    }

    /**
     When nothing is under evaluation, loading an entry file, or a require() made by a function
     of any module, succeeds exactly when it stands for a file from which only files in order
     and no circle are reachable, whatever was loaded before.
     */
    method LoadEntry(from: Option<File>, spec: string) returns (ok: bool, exports: nat)
      requires Valid() && stack == []
      modifies this
      ensures Valid() && stack == []
      ensures ok <==> Target(pkg, from, spec).Some? && Loadable(pkg, Target(pkg, from, spec).value)
      ensures ok ==>
                var target := Target(pkg, from, spec).value;
                && target in cache && cache[target] == exports
                && (if target in old(cache) then exports == old(cache[target]) else BeganAt(target, |old(order)|))
    {
      ok, exports := Load(from, spec);
      hide Ordered, DeadEnd, Chain, NoDuplicates, Needs, Fine, Loadable, Target;
      if ok {
        CachedLoadable(pkg, order, Target(pkg, from, spec).value);
      } else if Target(pkg, from, spec).Some? {
        ghost var p :| DeadEnd(pkg, p) && p[0] == Target(pkg, from, spec).value;
        DeadEndMeaning(pkg, p);
      }
    }

    /**
     What a script sees as the result of its require(): the value handed over last. It is the
     right one exactly when the file was loaded just now or was the last to be handed over.
     */
    method Require(from: File, spec: string) returns (ok: bool, value: nat)
      requires Valid() && At(pkg, stack, Some(from), spec)
      modifies this
      ensures Valid() && stack == old(stack) && Grown(old(cache), old(order), old(made)) && value == peek
      ensures ok ==>
                && Target(pkg, Some(from), spec).Some?
                && var target := Target(pkg, Some(from), spec).value;
                   && target in cache && (target in old(cache) ==> order == old(order))
                   && value == (if target in old(cache) then old(peek) else cache[target])
                   && (value == cache[target] <==> target !in old(cache) || old(peek) == old(cache[target]))
      ensures !ok ==>
                Target(pkg, Some(from), spec) == None || GoesOnBadly(pkg, stack, Target(pkg, Some(from), spec).value)
      ensures if Target(pkg, Some(from), spec) == None then cache == old(cache)
              else OnlyNew(pkg, old(cache), cache, Target(pkg, Some(from), spec).value)
      decreases Unvisited(pkg, stack), 2
    {
      var exports;
      ok, exports := Load(Some(from), spec);
      value := peek;
    }

    /** Runs a module that is neither cached nor under evaluation. */
    method Evaluate(target: File) returns (ok: bool, exports: nat)
      requires Valid() && NoDuplicates(stack) && Chain(pkg, stack + [target])
      requires target !in cache && target !in stack && target in pkg && pkg[target].compiles
      modifies this
      ensures Valid() && stack == old(stack) && Grown(old(cache), old(order), old(made))
      ensures ok ==> target in cache && cache[target] == exports && peek == exports && BeganAt(target, |old(order)|)
      ensures !ok ==> exists p :: stack + [target] <= p && DeadEnd(pkg, p)
      ensures OnlyNew(pkg, old(cache), cache, target)
      decreases Unvisited(pkg, stack), 0
    {
      hide Ordered, DeadEnd, Chain, NoDuplicates, Needs, Fine, Sound, Extends, FirstLoaded, OnlyNew;
      hide LastTold, AllSaw, Saw;
      ghost var path := stack + [target];
      Smaller(pkg, stack, target);
      PushKeeps(stack, target);
      Pushed(pkg, cache, order, stack, made, target);
      stack := stack + [target];
      ghost var sight;
      ok, sight := RunBody(target);
      UnderWay(pkg, cache, order, stack, made, target);
      stack := stack[..|stack| - 1];
      assert stack == old(stack);
      Popped(pkg, cache, order, stack, made, target);
      if !ok {
        return false, 0;
      }
      Complete(pkg, cache, order, stack, made, target);
      ExtendsTrans(
        old(cache), old(order), old(made), cache, order, made, cache[target := made], order + [target], made + 1);
      NewItself(pkg, old(cache), cache, target, made);
      AllSawStays(pkg, cache, order, made, cache[target := made], order + [target], made + 1, sights, target, sight);
      NowLast(cache, order, target, made);
      sights := sights[target := sight];
      exports := made;
      made := made + 1;
      cache := cache[target := exports];
      order := order + [target];
      peek := exports;
    }

    /** The requires of the module on top of the stack, one after the other, until one fails. */
    method RunBody(target: File) returns (ok: bool, ghost sight: Sight)
      requires Valid() && NoDuplicates(stack) && Chain(pkg, stack) && stack[|stack| - 1] == target
      requires target in pkg && pkg[target].compiles
      modifies this
      ensures Valid() && stack == old(stack) && Grown(old(cache), old(order), old(made))
      ensures ok ==> FirstLoaded(pkg, cache, target, |pkg[target].imports|) && !pkg[target].throws
      ensures ok ==> Saw(pkg, cache, order, target, sight, |pkg[target].imports|) && sight.start == |old(order)|
      ensures !ok ==> exists p :: stack <= p && DeadEnd(pkg, p)
      ensures OnlyNew(pkg, old(cache), cache, target)
      decreases Unvisited(pkg, stack), 4
    {
      sight := Sight(|order|, [], []);
      SawNothing(pkg, cache, order, target);
      hide Ordered, DeadEnd, Chain, NoDuplicates, Needs, Fine, Sound, Extends, FirstLoaded, OnlyNew;
      hide LastTold, AllSaw, Saw;
      NothingNew(pkg, cache, target);
      var i := 0;
      ExtendsSelf(cache, order, made);
      NoneLoaded(pkg, cache, target);
      while i < |pkg[target].imports|
        invariant i <= |pkg[target].imports| && stack == old(stack)
        invariant Valid() && Grown(old(cache), old(order), old(made)) && OnlyNew(pkg, old(cache), cache, target)
        invariant FirstLoaded(pkg, cache, target, i) && Saw(pkg, cache, order, target, sight, i)
        invariant |sight.marks| == i && sight.start == |old(order)| && |order| == Mark(sight, i)
      {
        hide Mark;
        ghost var c, o, m := cache, order, made;
        ok, sight := RunImport(target, i, sight);
        ExtendsTrans(old(cache), old(order), old(made), c, o, m, cache, order, made);
        OnlyNewTrans(pkg, old(cache), c, cache, target);
        if !ok {
          return;
        }
        i := i + 1;
      }
      if pkg[target].throws {
        NotFine(pkg, stack);
        return false, sight;
      }
      ok := true;
    }

    /** The next require of the module on top of the stack. */
    method RunImport(target: File, i: nat, ghost sight0: Sight) returns (ok: bool, ghost sight: Sight)
      requires Valid() && NoDuplicates(stack) && Chain(pkg, stack) && stack[|stack| - 1] == target
      requires target in pkg && i < |pkg[target].imports|
      requires FirstLoaded(pkg, cache, target, i) && Saw(pkg, cache, order, target, sight0, i)
      requires |sight0.marks| == i && |order| == Mark(sight0, i)
      modifies this
      ensures Valid() && stack == old(stack) && Grown(old(cache), old(order), old(made))
      ensures OnlyNew(pkg, old(cache), cache, target)
      ensures ok ==> FirstLoaded(pkg, cache, target, i + 1) && Saw(pkg, cache, order, target, sight, i + 1)
      ensures ok ==> |sight.marks| == i + 1 && sight.start == sight0.start && |order| == Mark(sight, i + 1)
      ensures !ok ==> exists p :: stack <= p && DeadEnd(pkg, p)
      decreases Unvisited(pkg, stack), 3
    {
      hide Ordered, DeadEnd, Chain, NoDuplicates, Needs, Fine, Sound, Extends, FirstLoaded, OnlyNew;
      hide LastTold, AllSaw, Saw, SawAt;
      AtNext(pkg, stack, target, i);
      NothingNew(pkg, cache, target);
      var imp := pkg[target].imports[i];
      var value;
      ok, value := Require(imp.origin, imp.spec);
      sight := sight0;
      if Resolve(pkg.Keys, imp.origin, imp.spec) == None {
        Unresolved(pkg, stack, imp);
        return;
      }
      NeedsImport(pkg, target, i);
      NewThrough(pkg, old(cache), old(cache), cache, target, Resolve(pkg.Keys, imp.origin, imp.spec).value);
      if !ok {
        return;
      }
      SeesLast(pkg, old(cache), old(order), old(made), cache, order, made, stack, imp, peek);
      SawNext(pkg, old(cache), old(order), old(made), cache, order, made, target, sight0, i, value);
      sight := Sight(sight0.start, sight0.marks + [|order|], sight0.values + [value]);
      OneMoreLoaded(pkg, old(cache), old(order), old(made), cache, order, made, target, i);
    }
  }

  lemma OnlyNewTrans(pkg: Package, c0: map<File, nat>, c1: map<File, nat>, c2: map<File, nat>, f: File)
    requires OnlyNew(pkg, c0, c1, f) && OnlyNew(pkg, c1, c2, f)
    ensures OnlyNew(pkg, c0, c2, f)
  {
    hide Reaches;
  }

  lemma SawNothing(pkg: Package, cache: map<File, nat>, order: seq<File>, f: File)
    requires f in pkg
    ensures Saw(pkg, cache, order, f, Sight(|order|, [], []), 0)
  {
  }

  lemma NowLast(cache: map<File, nat>, order: seq<File>, f: File, exports: nat)
    ensures LastTold(cache[f := exports], order + [f], exports)
  {
  }

  /** A chain of requires that continues the ones under evaluation, or starts with the file asked for, ends badly. */
  ghost predicate GoesOnBadly(pkg: Package, stack: seq<File>, target: File) {
    exists p :: stack <= p && DeadEnd(pkg, p) && (stack == [] ==> p[0] == target)
  }

  lemma Unresolved(pkg: Package, stack: seq<File>, imp: Import)
    requires Chain(pkg, stack) && stack[|stack| - 1] in pkg && imp in pkg[stack[|stack| - 1]].imports
    requires Resolve(pkg.Keys, imp.origin, imp.spec) == None
    ensures DeadEnd(pkg, stack)
  {
    hide Resolve;
  }

  lemma NeedsImport(pkg: Package, f: File, i: nat)
    requires f in pkg && i < |pkg[f].imports|
    requires Resolve(pkg.Keys, pkg[f].imports[i].origin, pkg[f].imports[i].spec).Some?
    ensures Needs(pkg, f, Resolve(pkg.Keys, pkg[f].imports[i].origin, pkg[f].imports[i].spec).value)
  {
    hide Resolve;
    assert pkg[f].imports[i] in pkg[f].imports;
  }

  lemma NextOnPath(pkg: Package, stack: seq<File>, from: Option<File>, spec: string, target: File)
    requires At(pkg, stack, from, spec)
    requires Target(pkg, from, spec) == Some(target)
    ensures Chain(pkg, stack + [target])
  {
    hide Resolve, Chain;
    if stack != [] {
      var imp := Import(from.value, spec);
      assert imp in pkg[stack[|stack| - 1]].imports && Resolve(pkg.Keys, imp.origin, imp.spec) == Some(target);
    }
    ChainAppend(pkg, stack, target);
  }

  lemma Circular(pkg: Package, stack: seq<File>, target: File)
    requires Chain(pkg, stack + [target]) && target in stack
    ensures DeadEnd(pkg, stack + [target]) && stack <= stack + [target]
  {
    Repeats(stack, target);
  }

  lemma NotFine(pkg: Package, path: seq<File>)
    requires Chain(pkg, path) && var f := path[|path| - 1]; f !in pkg || !pkg[f].compiles || pkg[f].throws
    ensures DeadEnd(pkg, path)
  {
  }

  lemma PushKeeps(stack: seq<File>, f: File)
    requires NoDuplicates(stack) && f !in stack
    ensures NoDuplicates(stack + [f])
  {
  }

  lemma AtNext(pkg: Package, path: seq<File>, target: File, i: nat)
    requires Chain(pkg, path) && NoDuplicates(path) && path[|path| - 1] == target
    requires target in pkg && i < |pkg[target].imports|
    ensures At(pkg, path, Some(pkg[target].imports[i].origin), pkg[target].imports[i].spec)
  {
  }

  // ---- a require that yields the wrong module ----

  /**
   In every load, the k-th require of a module that was loaded yielded the right exports if and
   only if no other file was evaluated after the one it asked for.
   */
  lemma RightIff(env: HooksEnv, f: File, k: nat)
    requires env.Valid() && f in env.cache && f in env.pkg && k < |env.pkg[f].imports|
    ensures f in env.sights && k < |env.sights[f].marks| && k < |env.sights[f].values|
    ensures var imp, mark := env.pkg[f].imports[k], env.sights[f].marks[k];
            var r := Target(env.pkg, Some(imp.origin), imp.spec);
            && 0 < mark <= |env.order| && r.Some? && r.value in env.order[..mark] && r.value in env.cache
            && (env.sights[f].values[k] == env.cache[r.value] <==> env.order[mark - 1] == r.value)
  {
    Evaluated(env, f);
    var v, imp := env.sights[f], env.pkg[f].imports[k];
    assert Sound(env.pkg, env.cache, env.order, env.stack, env.made) && |v.marks| == |v.values| == |env.pkg[f].imports|;
    SawK(env.pkg, env.cache, env.order, f, v, |env.pkg[f].imports|, k);
    assert Mark(v, k + 1) == v.marks[k];
    hide LastTold, AllSaw, Resolve, Saw, Sound, SawAt;
    RightAt(env.pkg, env.cache, env.order, env.stack, env.made, imp, Mark(v, k), v.marks[k], v.values[k]);
  }

  lemma RightAt(
    pkg: Package, cache: map<File, nat>, order: seq<File>, stack: seq<File>, made: nat,
    imp: Import, from: nat, to: nat, value: nat)
    requires Sound(pkg, cache, order, stack, made) && SawAt(pkg, cache, order, imp, from, to, value)
    ensures 0 < to <= |order|
    ensures var r := Target(pkg, Some(imp.origin), imp.spec);
            && r.Some? && r.value in order[..to] && r.value in cache
            && (value == cache[r.value] <==> order[to - 1] == r.value)
  {
    hide Ordered, Resolve, Reaches;
    var g := Resolve(pkg.Keys, imp.origin, imp.spec).value;
    assert g in order;
  }

  /** A module that requires a, b, and a again. */
  const Thrice: Package :=
    map["a" := Body(true, [], false), "b" := Body(true, [], false),
        "m" := Body(true, [Import("m", "a"), Import("m", "b"), Import("m", "a")], false)]

  lemma FindsByName(name: string)
    requires name in Thrice.Keys && IsName(name) && IsName("m")
    ensures Target(Thrice, Some("m"), name) == Some(name)
  {
    RequiredFromAnywhere(Thrice.Keys, [], "m", [name]);
    assert [] + ["m"] == ["m"] && Ups(0) + [name] == [name];
    assert Join(["m"], '/') == "m" && Join([name], '/') == name;
  }

  lemma Leaf(name: string)
    requires name == "a" || name == "b"
    ensures Fine(Thrice, name) && forall g :: !Needs(Thrice, name, g)
  {
    assert Thrice[name] == Body(true, [], false);
    hide Resolve;
  }

  lemma Root()
    ensures Fine(Thrice, "m") && forall g | Needs(Thrice, "m", g) :: g == "a" || g == "b"
  {
    FindsByName("a");
    FindsByName("b");
    hide Resolve;
    assert forall imp <- Thrice["m"].imports :: imp == Import("m", "a") || imp == Import("m", "b");
  }

  lemma ThriceLoadable()
    ensures Loadable(Thrice, "m")
  {
    Leaf("a");
    Leaf("b");
    Root();
    hide Fine, Needs;
    var none: seq<File> := [];
    assert Ordered(Thrice, none);
    OrderedAppend(Thrice, none, "a");
    OrderedAppend(Thrice, none + ["a"], "b");
    OrderedAppend(Thrice, none + ["a"] + ["b"], "m");
    hide Ordered, Loadable;
    CachedLoadable(Thrice, none + ["a"] + ["b"] + ["m"], "m");
  }

  lemma FirstStep(pkg: Package, p: seq<File>)
    requires Chain(pkg, p) && |p| > 1
    ensures Needs(pkg, p[0], p[1])
  {
    hide Needs;
    assert Needs(pkg, p[0], p[0 + 1]);
  }

  lemma LeafAlone(name: string, g: File)
    requires (name == "a" || name == "b") && Reaches(Thrice, name, g)
    ensures g == name
  {
    Leaf(name);
    hide Fine, Needs;
    var p :| Chain(Thrice, p) && p[0] == name && p[|p| - 1] == g;
    if |p| > 1 {
      FirstStep(Thrice, p);
    }
  }

  /** Up to the third require, the evaluated files are a and b. */
  lemma ThriceSaw(cache: map<File, nat>, order: seq<File>, v: Sight)
    requires NoDuplicates(order) && Saw(Thrice, cache, order, "m", v, 3) && v.start == 0
    ensures "a" in cache && "b" in cache && v.values == [cache["a"], cache["b"], cache["b"]]
  {
    var imports := Thrice["m"].imports;
    assert imports == [Import("m", "a"), Import("m", "b"), Import("m", "a")];
    assert |v.marks| == |v.values| == 3 && Mark(v, 1) == v.marks[0] && Mark(v, 2) == v.marks[1];
    SawK(Thrice, cache, order, "m", v, 3, 0);
    SawK(Thrice, cache, order, "m", v, 3, 1);
    SawK(Thrice, cache, order, "m", v, 3, 2);
    hide Saw, SawAt, Mark, Resolve, NoDuplicates;
    FindsByName("a");
    FindsByName("b");
    OnlyLeaf(cache, order, "a", 0, v.marks[0], v.values[0]);
    OnlyLeaf(cache, order, "b", v.marks[0], v.marks[1], v.values[1]);
    Again(cache, order, v.marks[1], Mark(v, 3), v.values[2]);
    assert v.values == [v.values[0], v.values[1], v.values[2]];
  }

  lemma SawK(pkg: Package, cache: map<File, nat>, order: seq<File>, f: File, v: Sight, n: nat, k: nat)
    requires Saw(pkg, cache, order, f, v, n) && k < n
    ensures SawAt(pkg, cache, order, pkg[f].imports[k], Mark(v, k), Mark(v, k + 1), v.values[k])
  {
    hide SawAt;
    assert |v.values| == n;
  }

  /** A require of a when it is cached and b was evaluated last. */
  lemma Again(cache: map<File, nat>, order: seq<File>, from: nat, to: nat, value: nat)
    requires from == 2 && |order| >= 2 && order[0] == "a" && order[1] == "b"
    requires SawAt(Thrice, cache, order, Import("m", "a"), from, to, value)
    ensures "b" in cache && value == cache["b"]
  {
    FindsByName("a");
    hide Resolve, Reaches;
    assert order[..from][0] == "a";
  }

  /** A require of a file without requires, when it is not cached. */
  lemma OnlyLeaf(cache: map<File, nat>, order: seq<File>, name: string, from: nat, to: nat, value: nat)
    requires (name == "a" || name == "b") && NoDuplicates(order)
    requires from == 0 || (from == 1 && order != [] && order[0] != name)
    requires SawAt(Thrice, cache, order, Import("m", name), from, to, value)
    ensures to == from + 1 && order[from] == name && name in cache && value == cache[name]
  {
    FindsByName(name);
    hide Resolve, Reaches;
    assert from == 1 ==> order[..from] == [order[0]];
    assert name !in order[..from] && from < to;
    forall j | from <= j < to
      ensures order[j] == name
    {
      LeafAlone(name, order[j]);
    }
    NotTwice(order, name, from, to);
  }

  lemma NotTwice(order: seq<File>, name: string, from: nat, to: nat)
    requires NoDuplicates(order) && to <= |order| && forall j | from <= j < to :: order[j] == name
    ensures to <= from + 1
  {
    AreApart(order, from, from + 1);
    hide NoDuplicates;
  }

  lemma AreApart(order: seq<File>, i: nat, j: nat)
    requires NoDuplicates(order) && i < j
    ensures j < |order| ==> order[i] != order[j]
  {
  }

  lemma Evaluated(env: HooksEnv, f: File)
    requires env.Valid() && f in env.cache
    ensures f in env.order && NoDuplicates(env.order) && f in env.sights && f in env.pkg
    ensures Saw(env.pkg, env.cache, env.order, f, env.sights[f], |env.pkg[f].imports|)
  {
    CachedIffOrdered(env.pkg, env.cache, env.order, env.stack, env.made, f);
    hide Saw, LastTold;
  }

  lemma OwnExports(env: HooksEnv, f: File, g: File)
    requires env.Valid() && f in env.cache && g in env.cache && f != g
    ensures env.cache[f] != env.cache[g]
  {
    hide Ordered, AllSaw, LastTold;
  }

  /** Loading m: its third require asks for a and yields what b exports. */
  method RequireExample() returns (env: HooksEnv)
    ensures env.pkg == Thrice && env.Valid() && "a" in env.cache && "b" in env.cache && "m" in env.cache
    ensures "m" in env.sights && env.sights["m"].values == [env.cache["a"], env.cache["b"], env.cache["b"]]
    ensures env.cache["a"] != env.cache["b"]
  {
    env := new HooksEnv(Thrice);
    ThriceLoadable();
    hide Sound, AllSaw, Saw, LastTold, Loadable, NoDuplicates;
    assert Target(Thrice, None, "m") == Some("m");
    var _, _ := env.LoadEntry(None, "m");
    Evaluated(env, "m");
    ThriceSaw(env.cache, env.order, env.sights["m"]);
    OwnExports(env, "a", "b");
  }
}
