/** The local directory tree both tools work on: a set of directory paths
    and a map from file path to contents. A path's entries are the names of
    the paths one '/' below it; listing a directory returns them in the
    order of their character codes, the order the platform's directory
    scan hands to `fs.readdirSync`. */
module LocalFs {
  import opened Model

  datatype FileTree = FileTree(dirs: set<Path>, files: map<Path, Content>)

  /** `fs.existsSync`: a directory or a file is at `p`. */
  predicate Exists(dirs: set<Path>, files: map<Path, Content>, p: Path)
  {
    p in dirs || p in files
  }

  function Paths(t: FileTree): set<Path>
  {
    t.dirs + t.files.Keys
  }

  /** `p` lies at least one non-empty name below `folder`. */
  predicate Below(folder: Path, p: Path)
  {
    |p| > |folder| + 1 && p[..|folder| + 1] == folder + "/"
  }

  /** `p` is a direct entry of `folder`. */
  predicate ChildOf(folder: Path, p: Path)
  {
    Below(folder, p) && '/' !in p[|folder| + 1..]
  }

  /** The names of the entries of `folder`. */
  function Entries(t: FileTree, folder: Path): set<string>
  {
    set p | p in Paths(t) && ChildOf(folder, p) :: p[|folder| + 1..]
  }

  // ---------------------------------------------------------------------
  // Listing order

  /** Code-point order on strings, a proper prefix first. */
  predicate StrLess(a: string, b: string)
  {
    if a == [] then b != []
    else if b == [] then false
    else if a[0] != b[0] then a[0] < b[0]
    else StrLess(a[1..], b[1..])
  }

  lemma {:induction false} StrLessIrreflexive(a: string)
    ensures !StrLess(a, a)
  {
    if a != [] {
      StrLessIrreflexive(a[1..]);
    }
  }

  lemma {:induction false} StrLessTransitive(a: string, b: string, c: string)
    requires StrLess(a, b) && StrLess(b, c)
    ensures StrLess(a, c)
  {
    if a != [] && a[0] == b[0] && b[0] == c[0] {
      StrLessTransitive(a[1..], b[1..], c[1..]);
    }
  }

  lemma {:induction false} StrLessTotal(a: string, b: string)
    ensures a == b || StrLess(a, b) || StrLess(b, a)
  {
    if a != [] && b != [] && a[0] == b[0] {
      StrLessTotal(a[1..], b[1..]);
      if a[1..] == b[1..] {
        assert a == [a[0]] + a[1..] && b == [b[0]] + b[1..];
      }
    }
  }

  /** `m` comes first among the names in `s`. */
  predicate IsLeast(m: string, s: set<string>)
  {
    m in s && forall x :: x in s && x != m ==> StrLess(m, x)
  }

  lemma {:induction false} LeastExists(s: set<string>)
    requires s != {}
    ensures exists m :: IsLeast(m, s)
    decreases |s|
  {
    var x :| x in s;
    if s == {x} {
      assert IsLeast(x, s);
    } else {
      LeastExists(s - {x});
      var m :| IsLeast(m, s - {x});
      StrLessTotal(m, x);
      if StrLess(x, m) {
        forall y | y in s && y != x
          ensures StrLess(x, y)
        {
          if y != m {
            StrLessTransitive(x, m, y);
          }
        }
        assert IsLeast(x, s);
      } else {
        assert IsLeast(m, s);
      }
    }
  }

  lemma LeastUnique(s: set<string>)
    ensures forall m, n :: IsLeast(m, s) && IsLeast(n, s) ==> m == n
  {
    forall m, n | IsLeast(m, s) && IsLeast(n, s)
      ensures m == n
    {
      if m != n {
        StrLessTransitive(m, n, m);
        StrLessIrreflexive(m);
      }
    }
  }

  /** The first name of a non-empty set. */
  function Least(s: set<string>): (m: string)
    requires s != {}
    ensures IsLeast(m, s)
  {
    LeastExists(s);
    LeastUnique(s);
    var m :| IsLeast(m, s);
    m
  }

  /** Every earlier entry comes before every later one. */
  predicate StrictlySorted(r: seq<string>)
  {
    forall i, j :: 0 <= i < j < |r| ==> StrLess(r[i], r[j])
  }

  /** The names of `s`, each once, in code-point order. */
  function SortedList(s: set<string>): (r: seq<string>)
    ensures forall x :: x in r <==> x in s
    ensures |r| == |s|
    ensures StrictlySorted(r)
    decreases |s|
  {
    if s == {} then []
    else
      var m := Least(s);
      var rest := SortedList(s - {m});
      SortedCons(m, rest, s);
      [m] + rest
  }

  /** The least name in front of a listing of the others lists them all. */
  lemma SortedCons(m: string, rest: seq<string>, s: set<string>)
    requires IsLeast(m, s)
    requires forall x :: x in rest <==> x in s - {m}
    requires |rest| == |s - {m}| && StrictlySorted(rest)
    ensures var r := [m] + rest;
            (forall x :: x in r <==> x in s) && |r| == |s| && StrictlySorted(r)
  {
    var r := [m] + rest;
    forall i, j | 0 <= i < j < |r|
      ensures StrLess(r[i], r[j])
    {
      assert r[j] == rest[j - 1] && r[j] in s - {m};
      if i > 0 {
        assert r[i] == rest[i - 1];
      }
    }
  }

  /** `fs.readdirSync`: the entries of a directory; it throws (None) when
      nothing or a file is at that path. */
  function ReadDir(t: FileTree, folder: Path): Option<seq<string>>
  {
    if folder in t.dirs then Some(SortedList(Entries(t, folder))) else None
  }

  /** `JSON.parse(fs.readFileSync(path))` of a data file: it throws (None)
      when no data file is at that path. */
  function ReadData(t: FileTree, path: Path): Option<Fields>
  {
    if path in t.files && t.files[path].DataFile? then Some(t.files[path].fields) else None
  }

  /** A listing names exactly the entries of the directory, each once, in
      order. */
  lemma ReadDirListsEntries(t: FileTree, folder: Path)
    requires folder in t.dirs
    ensures ReadDir(t, folder).Some?
    ensures forall name :: name in ReadDir(t, folder).value <==>
              folder + "/" + name in Paths(t) && name != [] && '/' !in name
    ensures StrictlySorted(ReadDir(t, folder).value)
  {
    var names := ReadDir(t, folder).value;
    forall name
      ensures name in names <==> folder + "/" + name in Paths(t) && name != [] && '/' !in name
    {
      var p := folder + "/" + name;
      assert p[..|folder| + 1] == folder + "/" && p[|folder| + 1..] == name;
      if name in names {
        var q :| q in Paths(t) && ChildOf(folder, q) && q[|folder| + 1..] == name;
        assert q == q[..|folder| + 1] + q[|folder| + 1..];
      }
    }
  }

  /** Every name a listing returns is non-empty. */
  lemma ListedNamesNonEmpty(t: FileTree, folder: Path)
    requires folder in t.dirs
    ensures ReadDir(t, folder).Some?
    ensures forall k :: 0 <= k < |ReadDir(t, folder).value| ==> ReadDir(t, folder).value[k] != []
  {
    var names := ReadDir(t, folder).value;
    ReadDirListsEntries(t, folder);
    assert forall k :: 0 <= k < |names| ==> names[k] in names;
  }

  // ---------------------------------------------------------------------
  // Termination measure of a walk over the tree

  /** The paths at or below `folder`. */
  function Subtree(t: FileTree, folder: Path): set<Path>
  {
    set p | p in Paths(t) && (p == folder || Below(folder, p))
  }

  lemma BelowChild(folder: Path, name: string, p: Path)
    requires Below(folder + "/" + name, p)
    ensures Below(folder, p)
  {
    var child := folder + "/" + name;
    assert p[..|folder| + 1] == p[..|child| + 1][..|folder| + 1];
    assert (child + "/")[..|folder| + 1] == folder + "/";
  }

  /** Descending into an entry of an existing folder shrinks the subtree. */
  lemma SubtreeShrinks(t: FileTree, folder: Path, name: string)
    requires folder in Paths(t) && name != []
    ensures |Subtree(t, folder + "/" + name)| < |Subtree(t, folder)|
  {
    var child := folder + "/" + name;
    var a, b := Subtree(t, child), Subtree(t, folder);
    forall p | p in a
      ensures p in b
    {
      if p == child {
        assert p[..|folder| + 1] == folder + "/";
      } else {
        BelowChild(folder, name, p);
      }
    }
    assert folder in b && folder !in a;
    assert b == a + (b - a);
    assert a * (b - a) == {};
  }
}
