/** Path rules: Go's `path/filepath` Clean, Join and Base on a Unix host,
  * and the advisory lock table's rules for normalising a scope path and for
  * when two (scope type, scope path) pairs overlap. */
module ScopePaths {
  import opened Text

  // ------------------------------------------------------------ path.Clean

  /** A path element that survives cleaning: non-empty, not ".", free of "/". */
  predicate IsElement(s: string) {
    s != "" && s != "." && '/' !in s
  }

  /** The element stack `Resolve` builds: real elements, with any ".." only at
    * the front, and none at all in a rooted path. */
  predicate WellFormedStack(st: seq<string>, rooted: bool) {
    (forall i :: 0 <= i < |st| ==> IsElement(st[i]))
    && (forall i, j :: 0 <= i < j < |st| && st[j] == ".." ==> st[i] == "..")
    && (rooted ==> forall i :: 0 <= i < |st| ==> st[i] != "..")
  }

  /** Walks the elements of a split path left to right: drops empty and "."
    * elements, lets ".." cancel the element before it, drops a ".." that would
    * climb above the root, and keeps a leading ".." of a relative path. */
  function Resolve(elems: seq<string>, rooted: bool, acc: seq<string>): (r: seq<string>)
    requires forall i :: 0 <= i < |elems| ==> '/' !in elems[i]
    requires WellFormedStack(acc, rooted)
    ensures WellFormedStack(r, rooted)
    decreases |elems|
  {
    if elems == [] then acc
    else
      var e := elems[0];
      if e == "" || e == "." then Resolve(elems[1..], rooted, acc)
      else if e == ".." then
        if |acc| > 0 && acc[|acc| - 1] != ".." then Resolve(elems[1..], rooted, acc[..|acc| - 1])
        else if rooted then Resolve(elems[1..], rooted, acc)
        else Resolve(elems[1..], rooted, acc + [".."])
      else Resolve(elems[1..], rooted, acc + [e])
  }

  /** Go's `filepath.Clean` on a Unix host (where `filepath.ToSlash` is the
    * identity): the shortest lexically equivalent path. */
  function Clean(p: string): (r: string)
    ensures r != ""
    ensures r == "/" || r[|r| - 1] != '/'
  {
    if p == "" then "."
    else
      var rooted := p[0] == '/';
      var st := Resolve(Split(p, '/'), rooted, []);
      var body := Join(st, "/");
      JoinEnd(st);
      if rooted then "/" + body
      else if body == "" then "."
      else body
  }

  /** Joining real elements with "/" neither starts nor ends with "/", and is
    * empty only for the empty list. */
  lemma {:induction false} JoinEnd(st: seq<string>)
    requires forall i :: 0 <= i < |st| ==> IsElement(st[i])
    ensures var j := Join(st, "/"); (j == "" <==> st == [])
    ensures st != [] ==> var j := Join(st, "/"); j[0] != '/' && j[|j| - 1] != '/'
    ensures st != [] ==> var j := Join(st, "/"); var l := st[|st| - 1];
      l != "" && j[0] == st[0][0] && j[|j| - 1] == l[|l| - 1]
    decreases |st|
  {
    if |st| > 1 {
      JoinEnd(st[1..]);
      assert st[0][0] != '/' by { assert st[0][0] in st[0]; }
      var l := Last(st);
      assert l[|l| - 1] in l;
    } else if |st| == 1 {
      assert st[0][0] in st[0];
      assert st[0][|st[0]| - 1] in st[0];
    }
  }

  function Last(st: seq<string>): string
    requires st != []
  {
    st[|st| - 1]
  }

  lemma {:induction false} ResolveKeeps(st: seq<string>, rooted: bool, acc: seq<string>)
    requires forall i :: 0 <= i < |st| ==> '/' !in st[i]
    requires WellFormedStack(acc, rooted)
    requires WellFormedStack(acc + st, rooted)
    ensures Resolve(st, rooted, acc) == acc + st
    decreases |st|
  {
    if st != [] {
      var e := st[0];
      assert (acc + st)[|acc|] == e;
      if e == ".." {
        assert forall i :: 0 <= i < |acc| ==> acc[i] == (acc + st)[i] == "..";
      }
      var acc' := if e == ".." then acc + [".."] else acc + [e];
      assert acc' + st[1..] == acc + st;
      assert WellFormedStack(acc', rooted) by {
        assert forall i :: 0 <= i < |acc'| ==> acc'[i] == (acc + st)[i];
      }
      ResolveKeeps(st[1..], rooted, acc');
    }
  }

  /** Cleaning a clean path changes nothing. */
  lemma CleanIdempotent(p: string)
    ensures Clean(Clean(p)) == Clean(p)
  {
    if p != "" {
      var rooted := p[0] == '/';
      var st := Resolve(Split(p, '/'), rooted, []);
      JoinEnd(st);
      var body := Join(st, "/");
      if rooted {
        assert Clean(p) == "/" + body;
        CleanRootedStack(st);
      } else {
        assert Clean(p) == if body == "" then "." else body;
        CleanRelativeStack(st);
      }
    } else {
      CleanRelativeStack([]);
    }
  }

  lemma CleanRootedStack(st: seq<string>)
    requires WellFormedStack(st, true)
    ensures Clean("/" + Join(st, "/")) == "/" + Join(st, "/")
  {
    if st == [] {
      assert "/" + Join(st, "/") == "/";
      CleanRoot();
    } else {
      CleanRootedNonEmpty(st);
    }
  }

  lemma CleanRoot()
    ensures Clean("/") == "/"
  {
    assert Split("/", '/') == ["", ""] by {
      assert "/" == "" + ['/'] + "";
      SplitAt("", '/', "");
      SplitNoSeparator("", '/');
    }
    assert Resolve(["", ""], true, []) == [];
  }

  lemma CleanRootedNonEmpty(st: seq<string>)
    requires WellFormedStack(st, true) && st != []
    ensures Clean("/" + Join(st, "/")) == "/" + Join(st, "/")
  {
    var body := Join(st, "/");
    JoinEnd(st);
    assert Split("/" + body, '/') == [""] + st by {
      SplitJoin(st, '/');
      SplitAt("", '/', body);
      assert "/" + body == "" + ['/'] + body;
    }
    assert Resolve([""] + st, true, []) == st by {
      assert ([""] + st)[1..] == st;
      ResolveKeeps(st, true, []);
      assert [] + st == st;
    }
  }

  lemma CleanRelativeStack(st: seq<string>)
    requires WellFormedStack(st, false)
    ensures var body := Join(st, "/"); Clean(if body == "" then "." else body) == (if body == "" then "." else body)
  {
    var body := Join(st, "/");
    JoinEnd(st);
    if body == "" {
      SplitNoSeparator(".", '/');
    } else {
      SplitJoin(st, '/');
      ResolveKeeps(st, false, []);
      assert [] + st == st;
    }
  }

  // --------------------------------------------------------- scope paths

  /** `normalizeScopePath`: a blank path is "", anything else is the cleaned,
    * trimmed path without a trailing "/". The root "/" therefore becomes "". */
  function NormalizeScopePath(path: string): (r: string)
    ensures IsBlank(path) ==> r == ""
    ensures r == "" || r[|r| - 1] != '/'
  {
    TrimSpaceBlank(path);
    var t := TrimSpace(path);
    if t == "" then "" else TrimSuffix(Clean(t), "/")
  }

  /** Normalising twice is normalising once, for every path whose normalised
    * form carries no white space at either end. */
  lemma NormalizeIdempotent(path: string)
    requires var n := NormalizeScopePath(path); n == "" || (!IsSpace(n[0]) && !IsSpace(n[|n| - 1]))
    ensures NormalizeScopePath(NormalizeScopePath(path)) == NormalizeScopePath(path)
  {
    var n := NormalizeScopePath(path);
    if n != "" {
      var t := TrimSpace(path);
      var c := Clean(t);
      assert c != "/";
      assert n == c;
      TrimSpaceUnchanged(n);
      CleanIdempotent(t);
    }
  }

  /** White space next to a separator survives cleaning, so a second
    * normalisation can still shorten the path: "./ a" becomes " a", then "a". */
  lemma NormalizeNotIdempotentOnInnerSpace()
    ensures NormalizeScopePath("./ a") == " a"
    ensures NormalizeScopePath(" a") == "a"
  {
    NormalizeDotSpace();
    NormalizeLeadingSpace();
  }

  lemma NormalizeDotSpace()
    ensures NormalizeScopePath("./ a") == " a"
  {
    CleanDotSpace();
    NormalizeToClean("./ a", " a");
  }

  /** A path with no white space at its ends whose cleaned form has no
    * trailing slash normalises to that cleaned form. */
  lemma NormalizeToClean(p: string, c: string)
    requires p != [] && !IsSpace(p[0]) && !IsSpace(p[|p| - 1])
    requires Clean(p) == c && c != [] && c[|c| - 1] != '/'
    ensures NormalizeScopePath(p) == c
  {
    TrimSpaceUnchanged(p);
    NoSlashSuffix(c);
  }

  lemma NoSlashSuffix(s: string)
    requires s != [] && s[|s| - 1] != '/'
    ensures TrimSuffix(s, "/") == s
  {
  }

  lemma NormalizeLeadingSpace()
    ensures NormalizeScopePath(" a") == "a"
  {
    TrimLeadingSpace();
    CleanSingle();
    assert !HasSuffix("a", "/");
  }

  lemma CleanDotSpace()
    ensures Clean("./ a") == " a"
  {
    assert "./ a" == "." + ['/'] + " a";
    SplitAt(".", '/', " a");
    SplitNoSeparator(" a", '/');
    assert Split("./ a", '/') == [".", " a"];
    assert [".", " a"][1..] == [" a"];
    assert Resolve([" a"], false, []) == Resolve([], false, [" a"]);
  }

  lemma TrimLeadingSpace()
    ensures TrimSpace(" a") == "a"
  {
    assert " a"[1..] == "a";
    assert !IsSpace('a');
    assert TrimLeftSpace("a") == "a";
    assert TrimLeftSpace(" a") == "a";
    assert TrimRightSpace("a") == "a";
  }

  lemma CleanSingle()
    ensures Clean("a") == "a"
  {
    SplitNoSeparator("a", '/');
    assert Resolve(["a"], false, []) == Resolve([], false, ["a"]);
  }

  // ------------------------------------------------------- prefix matching

  function SamePath(left: string, right: string): bool {
    NormalizeScopePath(left) == NormalizeScopePath(right)
  }

  /** `hasPathPrefix`: `prefix` covers `path` when, after normalisation, the
    * prefix is empty or ".", equals the path, or is followed in the path by a
    * "/" — whole path elements only. */
  function HasPathPrefix(path: string, prefix: string): bool {
    var np := NormalizeScopePath(path);
    var npre := NormalizeScopePath(prefix);
    if npre == "." || npre == "" then true
    else if np == npre then true
    else HasPrefix(np, npre + "/")
  }

  /** A path written as its elements, already in normal form. */
  predicate Canonical(st: seq<string>) {
    st != []
    && (forall i :: 0 <= i < |st| ==> IsElement(st[i]) && st[i] != "..")
    && !IsSpace(st[0][0]) && !IsSpace(Last(st)[|Last(st)| - 1])
  }

  lemma {:induction false} NormalizeCanonical(st: seq<string>)
    requires Canonical(st)
    ensures NormalizeScopePath(Join(st, "/")) == Join(st, "/")
  {
    var j := Join(st, "/");
    JoinEnd(st);
    TrimSpaceUnchanged(j);
    SplitJoin(st, '/');
    assert WellFormedStack(st, false);
    ResolveKeeps(st, false, []);
    assert [] + st == st;
  }

  lemma {:induction false} JoinAppend(a: seq<string>, b: seq<string>)
    requires a != [] && b != []
    ensures Join(a + b, "/") == Join(a, "/") + "/" + Join(b, "/")
    decreases |a|
  {
    if |a| == 1 {
      assert (a + b)[1..] == b;
    } else {
      assert (a + b)[1..] == a[1..] + b;
      JoinAppend(a[1..], b);
    }
  }

  lemma {:induction false} SplitAfterJoin(a: seq<string>, rest: string)
    requires a != []
    requires forall i :: 0 <= i < |a| ==> '/' !in a[i]
    ensures Split(Join(a, "/") + "/" + rest, '/') == a + Split(rest, '/')
    decreases |a|
  {
    if |a| == 1 {
      assert Join(a, "/") + "/" + rest == a[0] + ['/'] + rest;
      SplitAt(a[0], '/', rest);
      assert a == [a[0]];
    } else {
      var tail := Join(a[1..], "/");
      assert Join(a, "/") == a[0] + "/" + tail;
      assert Join(a, "/") + "/" + rest == a[0] + ['/'] + (tail + "/" + rest);
      SplitAt(a[0], '/', tail + "/" + rest);
      SplitAfterJoin(a[1..], rest);
      assert [a[0]] + (a[1..] + Split(rest, '/')) == a + Split(rest, '/');
    }
  }

  /** For a normal-form prefix the "empty or dot" case never applies. */
  lemma {:induction false} CanonicalPrefixCase(path: seq<string>, prefix: seq<string>)
    requires Canonical(path) && Canonical(prefix)
    ensures var p := Join(path, "/"); var q := Join(prefix, "/");
      HasPathPrefix(p, q) == (p == q || HasPrefix(p, q + "/"))
  {
    var q := Join(prefix, "/");
    NormalizeCanonical(path);
    NormalizeCanonical(prefix);
    JoinEnd(prefix);
    if q == "." {
      SplitJoin(prefix, '/');
      SplitNoSeparator(".", '/');
      assert false;
    }
  }

  /** Prefix locks match whole path elements: for paths in normal form,
    * `prefix` covers `path` exactly when the prefix's elements begin the
    * path's elements. So "src/api" covers "src/api" and "src/api/v1" but not
    * "src/apix". */
  lemma {:induction false} HasPathPrefixByElements(path: seq<string>, prefix: seq<string>)
    requires Canonical(path) && Canonical(prefix)
    ensures HasPathPrefix(Join(path, "/"), Join(prefix, "/")) <==> prefix <= path
  {
    CanonicalPrefixCase(path, prefix);
    if HasPathPrefix(Join(path, "/"), Join(prefix, "/")) {
      CoveredHasElementPrefix(path, prefix);
    }
    if prefix <= path {
      ElementPrefixIsCovered(path, prefix);
    }
  }

  lemma {:induction false} CoveredHasElementPrefix(path: seq<string>, prefix: seq<string>)
    requires Canonical(path) && Canonical(prefix)
    requires var p := Join(path, "/"); var q := Join(prefix, "/"); p == q || HasPrefix(p, q + "/")
    ensures prefix <= path
  {
    var p := Join(path, "/");
    var q := Join(prefix, "/");
    SplitJoin(path, '/');
    SplitJoin(prefix, '/');
    if p != q {
      var rest := p[|q| + 1..];
      assert p == q + "/" + rest;
      SplitAfterJoin(prefix, rest);
      assert path == prefix + Split(rest, '/');
    }
  }

  lemma {:induction false} ElementPrefixIsCovered(path: seq<string>, prefix: seq<string>)
    requires Canonical(path) && Canonical(prefix)
    requires prefix <= path
    ensures var p := Join(path, "/"); var q := Join(prefix, "/"); p == q || HasPrefix(p, q + "/")
  {
    if prefix != path {
      var more := path[|prefix|..];
      assert path == prefix + more;
      JoinAppend(prefix, more);
    }
  }

  /** The root, ".", and anything blank cover every path. */
  lemma EmptyPrefixCoversAll(path: string, prefix: string)
    requires NormalizeScopePath(prefix) in {"", "."}
    ensures HasPathPrefix(path, prefix)
  {
  }

  // ------------------------------------------------------------- conflicts

  /** `scopesConflict`: whether a new lock on (newType, newPath) overlaps an
    * existing lock on (oldType, oldPath). Only "file" and "prefix" scopes ever
    * conflict. */
  function ScopesConflict(newType: string, newPath: string, oldType: string, oldPath: string): bool {
    match (newType, oldType)
    case ("file", "file") => SamePath(newPath, oldPath)
    case ("file", "prefix") => HasPathPrefix(newPath, oldPath)
    case ("prefix", "file") => HasPathPrefix(oldPath, newPath)
    case ("prefix", "prefix") => HasPathPrefix(newPath, oldPath) || HasPathPrefix(oldPath, newPath)
    case _ => false
  }

  /** Scopes of any other type never conflict with anything. */
  lemma ScopesConflictKinds(newType: string, newPath: string, oldType: string, oldPath: string)
    ensures ScopesConflict(newType, newPath, oldType, oldPath) ==>
      newType in {"file", "prefix"} && oldType in {"file", "prefix"}
  {
  }

  /** Which lock is "new" does not matter. */
  lemma ScopesConflictSymmetric(t1: string, p1: string, t2: string, p2: string)
    ensures ScopesConflict(t1, p1, t2, p2) == ScopesConflict(t2, p2, t1, p1)
  {
  }

  /** Two file locks conflict exactly on the same normalised path, a file
    * lock conflicts with a prefix lock exactly when the prefix covers the
    * file, and two prefix locks conflict when either covers the other. */
  lemma ScopesConflictCases(p1: string, p2: string)
    ensures ScopesConflict("file", p1, "file", p2) <==> SamePath(p1, p2)
    ensures ScopesConflict("file", p1, "prefix", p2) <==> HasPathPrefix(p1, p2)
    ensures ScopesConflict("prefix", p1, "file", p2) <==> HasPathPrefix(p2, p1)
    ensures ScopesConflict("prefix", p1, "prefix", p2) <==> HasPathPrefix(p1, p2) || HasPathPrefix(p2, p1)
  {
  }

  // ------------------------------------------------ filepath.Join and Base

  function TrimTrailingSlashes(s: string): (r: string)
    ensures |r| <= |s|
    ensures r == [] || r[|r| - 1] != '/'
    decreases |s|
  {
    if |s| > 0 && s[|s| - 1] == '/' then TrimTrailingSlashes(s[..|s| - 1]) else s
  }

  function AfterLastSlash(s: string): (r: string)
    ensures '/' !in r
    ensures |r| <= |s|
    decreases |s|
  {
    if s == [] || s[|s| - 1] == '/' then [] else AfterLastSlash(s[..|s| - 1]) + [s[|s| - 1]]
  }

  /** `filepath.Base` on a slash-separated path: "." for "", "/" for a path
    * of slashes only, otherwise the last element. */
  function PathBase(p: string): (r: string)
    ensures r != ""
    ensures p == "" ==> r == "."
    ensures r == "/" || '/' !in r
  {
    if p == "" then "."
    else
      var b := AfterLastSlash(TrimTrailingSlashes(p));
      if b == "" then "/" else b
  }

  /** Go's `filepath.Join` on a Unix host: the elements from the first
    * non-empty one on, joined with "/" and cleaned; "" when all are empty. */
  function FilepathJoin(elems: seq<string>): (r: string)
    ensures (forall i :: 0 <= i < |elems| ==> elems[i] == "") ==> r == ""
    ensures (exists i :: 0 <= i < |elems| && elems[i] != "") ==> r != ""
    decreases |elems|
  {
    if elems == [] then ""
    else if elems[0] != "" then Clean(Join(elems, "/"))
    else FilepathJoin(elems[1..])
  }

  lemma {:induction false} SplitLast(a: string, e: string)
    requires '/' !in e
    ensures Split(a + "/" + e, '/') == Split(a, '/') + [e]
    decreases |a|
  {
    if |a| == 0 {
      assert a + "/" + e == ['/'] + e;
      assert (['/'] + e)[1..] == e;
      SplitNoSeparator(e, '/');
    } else {
      assert (a + "/" + e)[1..] == a[1..] + "/" + e;
      SplitLast(a[1..], e);
    }
  }

  /** A real element at the end of a path survives resolution unchanged. */
  lemma {:induction false} ResolveAppend(elems: seq<string>, rooted: bool, acc: seq<string>, e: string)
    requires forall i :: 0 <= i < |elems| ==> '/' !in elems[i]
    requires WellFormedStack(acc, rooted)
    requires IsElement(e) && e != ".."
    ensures Resolve(elems + [e], rooted, acc) == Resolve(elems, rooted, acc) + [e]
    decreases |elems|
  {
    if elems == [] {
      assert elems + [e] == [e];
    } else {
      assert (elems + [e])[0] == elems[0];
      assert (elems + [e])[1..] == elems[1..] + [e];
      var x := elems[0];
      if x == "" || x == "." {
        ResolveAppend(elems[1..], rooted, acc, e);
      } else if x == ".." {
        if |acc| > 0 && acc[|acc| - 1] != ".." {
          ResolveAppend(elems[1..], rooted, acc[..|acc| - 1], e);
        } else if rooted {
          ResolveAppend(elems[1..], rooted, acc, e);
        } else {
          ResolveAppend(elems[1..], rooted, acc + [".."], e);
        }
      } else {
        ResolveAppend(elems[1..], rooted, acc + [x], e);
      }
    }
  }

  /** Cleaning an absolute path that ends in a real element keeps that
    * element as the last one. */
  lemma CleanKeepsLastElement(a: string, e: string)
    requires a != [] && a[0] == '/'
    requires IsElement(e) && e != ".."
    ensures HasSuffix(Clean(a + "/" + e), "/" + e)
  {
    var p := a + "/" + e;
    var st := Resolve(Split(a, '/'), true, []);
    assert Clean(p) == "/" + Join(st + [e], "/") by {
      assert p[0] == '/';
      SplitLast(a, e);
      ResolveAppend(Split(a, '/'), true, [], e);
    }
    if st != [] {
      assert Clean(p) == ("/" + Join(st, "/")) + ("/" + e) by {
        JoinAppend(st, [e]);
      }
    } else {
      assert st + [e] == [e];
    }
  }

  lemma {:induction false} AfterLastSlashOf(x: string, e: string)
    requires '/' !in e
    ensures AfterLastSlash(x + "/" + e) == e
    decreases |e|
  {
    if e == [] {
    } else {
      var p := x + "/" + e;
      assert p[..|p| - 1] == x + "/" + e[..|e| - 1];
      assert e[|e| - 1] in e;
      AfterLastSlashOf(x, e[..|e| - 1]);
      assert e[..|e| - 1] + [e[|e| - 1]] == e;
    }
  }

  /** The base of a path ending in "/" and a real element is that element. */
  lemma PathBaseOfLastElement(p: string, e: string)
    requires IsElement(e) && HasSuffix(p, "/" + e)
    ensures PathBase(p) == e
  {
    var x := p[..|p| - |e| - 1];
    assert p == x + "/" + e;
    assert e[|e| - 1] in e;
    AfterLastSlashOf(x, e);
  }

  /** `filepath.Join(repo, ".codex-orch", "worktrees", name)` for an absolute
    * repository path names a directory whose base is `name`. */
  lemma WorktreeDirBase(repo: string, name: string)
    requires repo != [] && repo[0] == '/'
    requires IsElement(name) && name != ".."
    ensures PathBase(FilepathJoin([repo, ".codex-orch", "worktrees", name])) == name
  {
    var elems := [repo, ".codex-orch", "worktrees", name];
    var dir := repo + "/" + ".codex-orch" + "/" + "worktrees";
    assert Join(elems, "/") == dir + "/" + name by {
      var tail := ["worktrees", name];
      assert tail[1..] == [name];
      assert Join(tail, "/") == "worktrees" + "/" + name;
      var mid := [".codex-orch", "worktrees", name];
      assert mid[1..] == tail;
      assert Join(mid, "/") == ".codex-orch" + "/" + Join(tail, "/");
      assert elems[1..] == mid;
      assert Join(elems, "/") == repo + "/" + Join(mid, "/");
    }
    CleanKeepsLastElement(dir, name);
    PathBaseOfLastElement(Clean(dir + "/" + name), name);
  }
}
