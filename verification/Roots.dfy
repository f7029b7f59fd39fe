/** Lexical containment and the watcher's use of it: overlapping-root reduction and the owner of an
    event (internal/pathutil/pathutil.go, internal/watcher/watcher.go). Paths are clean and
    absolute, given by their components; the root directory is the empty sequence. */
module Roots {
  import opened Prelude

  type Path = seq<string>

  predicate Clean(p: Path) {
    forall i :: 0 <= i < |p| ==> p[i] != "" && p[i] != "." && p[i] != ".."
  }

  function CommonPrefix(a: Path, b: Path): (n: nat)
    ensures n <= |a| && n <= |b| && a[..n] == b[..n]
    ensures n < |a| && n < |b| ==> a[n] != b[n]
  {
    if a == [] || b == [] || a[0] != b[0] then 0
    else
      var n := CommonPrefix(a[1..], b[1..]);
      assert a[..n + 1] == [a[0]] + a[1..][..n] && b[..n + 1] == [b[0]] + b[1..][..n];
      n + 1
  }

  /** filepath.Rel: up out of what is left of root, then down to p. */
  function Rel(root: Path, p: Path): Path {
    var n := CommonPrefix(root, p);
    seq(|root| - n, _ => "..") + p[n..]
  }

  /** relWithin: the relative path exists and does not climb. */
  predicate WithinRoot(root: Path, p: Path) {
    var rel := Rel(root, p);
    !(|rel| > 0 && rel[0] == "..")
  }

  /** On clean paths containment is the prefix order: no sibling whose name merely starts alike. */
  lemma WithinIffPrefix(root: Path, p: Path)
    requires Clean(p)
    ensures WithinRoot(root, p) <==> root <= p
  {
    var n := CommonPrefix(root, p);
    if n == |root| {
      assert root[..n] == root && p[..n] <= p;
      if n < |p| { assert Rel(root, p)[0] == p[n]; }
    } else {
      assert Rel(root, p)[0] == "..";
      assert n < |p| ==> root[n] != p[n];
    }
  }

  /** Length of the path as a string: a slash before each component, one for the root. */
  function Length(p: Path): (n: nat)
    ensures n >= 1
  {
    if |p| <= 1 then (if p == [] then 1 else 1 + |p[0]|) else Length(p[..|p| - 1]) + 1 + |p[|p| - 1]|
  }

  /** Among the ancestors of one path, the longer string is the deeper directory. */
  lemma {:induction false} LongerIsDeeper(a: Path, b: Path)
    requires Clean(b) && a <= b
    ensures Length(a) < Length(b) <==> |a| < |b|
    decreases |b|
  {
    if |a| < |b| {
      var parent := b[..|b| - 1];
      assert a <= parent;
      LongerIsDeeper(a, parent);
      if |a| == |parent| { assert a == parent; }
    } else {
      assert a == b;
    }
  }

  datatype Library = Library(id: int, path: Path)

  // ----- dedupeRoots -----

  /** libs[j] makes libs[i] redundant. */
  predicate Shadows(libs: seq<Library>, j: nat, i: nat)
    requires i < |libs| && j < |libs|
  {
    j != i && if libs[j].path == libs[i].path then j < i else WithinRoot(libs[j].path, libs[i].path)
  }

  predicate Kept(libs: seq<Library>, i: nat)
    requires i < |libs|
  {
    forall j :: 0 <= j < |libs| ==> !Shadows(libs, j, i)
  }

  function KeptOf(libs: seq<Library>, n: nat): seq<Library>
    requires n <= |libs|
  {
    if n == 0 then []
    else if Kept(libs, n - 1) then KeptOf(libs, n - 1) + [libs[n - 1]]
    else KeptOf(libs, n - 1)
  }

  method DedupeRoots(libs: seq<Library>) returns (kept: seq<Library>)
    ensures kept == KeptOf(libs, |libs|)
  {
    kept := [];
    for i := 0 to |libs|
      invariant kept == KeptOf(libs, i)
    {
      var lib := libs[i];
      var nested := false;
      for j := 0 to |libs|
        invariant !nested && forall k :: 0 <= k < j ==> !Shadows(libs, k, i)
      {
        if i == j {
          continue;
        }
        if libs[j].path == lib.path {
          if j < i {
            nested := true;
            assert Shadows(libs, j, i);
            break;
          }
          continue;
        }
        if WithinRoot(libs[j].path, lib.path) {
          nested := true;
          assert Shadows(libs, j, i);
          break;
        }
      }
      if !nested {
        kept := kept + [lib];
      }
    }
  }

  ghost predicate AllClean(libs: seq<Library>) {
    forall i :: 0 <= i < |libs| ==> Clean(libs[i].path)
  }

  /** Two kept libraries are never nested, nor equal. */
  lemma KeptAreApart(libs: seq<Library>, i: nat, j: nat)
    requires AllClean(libs) && i < |libs| && j < |libs| && i != j && Kept(libs, i) && Kept(libs, j)
    ensures !WithinRoot(libs[i].path, libs[j].path)
  {
    WithinIffPrefix(libs[i].path, libs[j].path);
    assert !Shadows(libs, i, j) && !Shadows(libs, j, i);
  }

  /** Every configured library lies under some kept root ... */
  lemma {:induction false} SomeKeptRoot(libs: seq<Library>, i: nat) returns (k: nat)
    requires AllClean(libs) && i < |libs|
    ensures k < |libs| && Kept(libs, k) && WithinRoot(libs[k].path, libs[i].path)
    decreases |libs[i].path|, i
  {
    if Kept(libs, i) {
      k := i;
      WithinIffPrefix(libs[i].path, libs[i].path);
    } else {
      var j :| 0 <= j < |libs| && Shadows(libs, j, i);
      WithinIffPrefix(libs[j].path, libs[i].path);
      k := SomeKeptRoot(libs, j);
      WithinIffPrefix(libs[k].path, libs[j].path);
      WithinIffPrefix(libs[k].path, libs[i].path);
    }
  }

  /** ... and under no other. */
  lemma OnlyKeptRoot(libs: seq<Library>, i: nat, k: nat, m: nat)
    requires AllClean(libs) && i < |libs| && k < |libs| && m < |libs| && Kept(libs, k) && Kept(libs, m)
    requires WithinRoot(libs[k].path, libs[i].path) && WithinRoot(libs[m].path, libs[i].path)
    ensures k == m
  {
    var a, b, p := libs[k].path, libs[m].path, libs[i].path;
    WithinIffPrefix(a, p);
    WithinIffPrefix(b, p);
    if k != m {
      KeptAreApart(libs, k, m);
      KeptAreApart(libs, m, k);
      WithinIffPrefix(a, b);
      WithinIffPrefix(b, a);
      PrefixesCompare(a, b, p);
    }
  }

  lemma PrefixesCompare(a: Path, b: Path, p: Path)
    requires a <= p && b <= p
    ensures a <= b || b <= a
  {
    if |a| <= |b| {
      assert a == p[..|a|] == b[..|a|];
    } else {
      assert b == p[..|b|] == a[..|b|];
    }
  }

  /** The result lists exactly the kept libraries, in configuration order. */
  lemma {:induction false} KeptIsListed(libs: seq<Library>, n: nat, i: nat)
    requires i < n <= |libs| && Kept(libs, i)
    ensures libs[i] in KeptOf(libs, n)
  {
    if i < n - 1 { KeptIsListed(libs, n - 1, i); }
  }

  lemma {:induction false} ListedIsKept(libs: seq<Library>, n: nat, lib: Library) returns (i: nat)
    requires n <= |libs| && lib in KeptOf(libs, n)
    ensures i < n && Kept(libs, i) && libs[i] == lib
  {
    if Kept(libs, n - 1) && libs[n - 1] == lib {
      i := n - 1;
    } else {
      i := ListedIsKept(libs, n - 1, lib);
    }
  }

  /** What the watcher relies on: the kept roots cover every library, each exactly once. */
  lemma RootsPartition(libs: seq<Library>, lib: Library) returns (root: Library)
    requires AllClean(libs) && lib in libs
    ensures root in KeptOf(libs, |libs|) && WithinRoot(root.path, lib.path)
    ensures forall other :: other in KeptOf(libs, |libs|) && WithinRoot(other.path, lib.path) ==> other == root
  {
    var i: nat :| i < |libs| && libs[i] == lib;
    var k := SomeKeptRoot(libs, i);
    root := libs[k];
    KeptIsListed(libs, |libs|, k);
    forall other | other in KeptOf(libs, |libs|) && WithinRoot(other.path, lib.path)
      ensures other == root
    {
      var m := ListedIsKept(libs, |libs|, other);
      OnlyKeptRoot(libs, i, k, m);
    }
  }

  // ----- eventTarget -----

  /** What os.Stat said about the event path. */
  datatype Stat = Missing | File | Directory

  function Parent(p: Path): Path {
    if p == [] then [] else p[..|p| - 1]
  }

  /** libs[k] is the first of the deepest libraries containing p. */
  ghost predicate DeepestOwner(libs: seq<Library>, p: Path, k: int) {
    && 0 <= k < |libs| && WithinRoot(libs[k].path, p)
    && forall j :: 0 <= j < |libs| && WithinRoot(libs[j].path, p) ==>
         |libs[j].path| <= |libs[k].path| && (j < k ==> |libs[j].path| < |libs[k].path|)
  }

  method EventTarget(libs: seq<Library>, path: Path, stat: Stat)
    returns (target: Option<(Library, Path)>, ghost owner: int)
    requires AllClean(libs) && Clean(path)
    ensures target.None? <==> forall j :: 0 <= j < |libs| ==> !WithinRoot(libs[j].path, path)
    ensures target.Some? ==>
              && DeepestOwner(libs, path, owner) && target.value.0 == libs[owner]
              && WithinRoot(libs[owner].path, target.value.1)
              && target.value.1 == (if stat.Directory? || path == libs[owner].path then path else Parent(path))
  {
    var best, found := Library(0, []), false;
    owner := -1;
    for i := 0 to |libs|
      invariant found <==> exists j :: 0 <= j < i && WithinRoot(libs[j].path, path)
      invariant found ==> 0 <= owner < i && best == libs[owner] && WithinRoot(best.path, path)
      invariant found ==>
                  forall j :: 0 <= j < i && WithinRoot(libs[j].path, path) ==>
                    |libs[j].path| <= |best.path| && (j < owner ==> |libs[j].path| < |best.path|)
    {
      var lib := libs[i];
      if found && WithinRoot(lib.path, path) {
        DepthByLength(best.path, lib.path, path);
      }
      if WithinRoot(lib.path, path) && (!found || Length(lib.path) > Length(best.path)) {
        best, found, owner := lib, true, i;
      }
    }
    if !found {
      return None, owner;
    }
    var dir := path;
    if stat.Missing? || stat.File? {
      dir := Parent(path);
    }
    ParentWithin(best.path, path);
    if !WithinRoot(best.path, dir) {
      dir := best.path;
    }
    WithinIffPrefix(best.path, best.path);
    target := Some((best, dir));
  }

  lemma AncestorsByLength(a: Path, b: Path, p: Path)
    requires Clean(p) && a <= p && b <= p
    ensures Length(b) > Length(a) <==> |b| > |a|
  {
    PrefixesCompare(a, b, p);
    if a <= b {
      LongerIsDeeper(a, b);
    } else {
      LongerIsDeeper(b, a);
    }
  }

  lemma DepthByLength(a: Path, b: Path, p: Path)
    requires Clean(p) && WithinRoot(a, p) && WithinRoot(b, p)
    ensures Length(b) > Length(a) <==> |b| > |a|
  {
    WithinIffPrefix(a, p);
    WithinIffPrefix(b, p);
    AncestorsByLength(a, b, p);
  }

  /** The parent of a path leaves a root only when the path is that root. */
  lemma ParentWithin(root: Path, p: Path)
    requires Clean(p) && WithinRoot(root, p)
    ensures WithinRoot(root, Parent(p)) <==> p != root || p == []
  {
    WithinIffPrefix(root, p);
    WithinIffPrefix(root, Parent(p));
  }
}
