/** The directory tree the summarizer walks, and the path operations it uses on it. */
module FileTree {
  import opened PyStr

  /** A directory entry name as the operating system reports it: it never holds `/`. */
  type Name = s: string | '/' !in s

  /** A directory: its name, then its files and subdirectories, each in the order the OS lists them. */
  datatype Dir = Dir(name: Name, files: seq<Name>, subdirs: seq<Dir>)

  /** The document the tool writes into the directory it summarizes. */
  const OutputFile: Name := "Context_for_ChatGPT.md"

  /** `os.path.join(a, b)` on POSIX, for a name `b`. */
  function PathJoin(a: string, b: Name): string
  {
    if a == "" || a[|a| - 1] == '/' then a + b else a + "/" + b
  }

  /** A child's path contains whatever its parent's path contains. */
  lemma {:induction false} PathJoinContains(a: string, b: Name, t: string)
    requires Contains(a, t)
    ensures Contains(PathJoin(a, b), t)
  {
    if a == "" || a[|a| - 1] == '/' {
      ContainsAppend(a, b, t);
    } else {
      ContainsAppend(a, "/" + b, t);
      assert a + "/" + b == a + ("/" + b);
    }
  }

  /** Whether the indices in `p` lead, one subdirectory at a time, from `d` to one of its descendants. */
  predicate IsPath(d: Dir, p: seq<nat>)
    decreases |p|
  {
    p == [] || (p[0] < |d.subdirs| && IsPath(d.subdirs[p[0]], p[1..]))
  }

  /** The path at which the descendant `p` leads to is found, when `d` is found at `root`. */
  function PathName(root: string, d: Dir, p: seq<nat>): string
    requires IsPath(d, p)
    decreases |p|
  {
    if p == [] then root else PathName(PathJoin(root, d.subdirs[p[0]].name), d.subdirs[p[0]], p[1..])
  }

  /** The path of the directory whose subdirectories hold the descendant `p` leads to. */
  function ParentName(root: string, d: Dir, p: seq<nat>): string
    requires IsPath(d, p) && p != []
    decreases |p|
  {
    if |p| == 1 then root else ParentName(PathJoin(root, d.subdirs[p[0]].name), d.subdirs[p[0]], p[1..])
  }

  /** A descendant's path is its name joined to the path of the directory that holds it. */
  lemma {:induction false} PathNameOfParent(root: string, d: Dir, p: seq<nat>)
    requires IsPath(d, p) && p != []
    ensures PathName(root, d, p) == PathJoin(ParentName(root, d, p), At(d, p).name)
    decreases |p|
  {
    var c := d.subdirs[p[0]];
    if |p| == 1 {
      assert p[1..] == [];
    } else {
      PathNameOfParent(PathJoin(root, c.name), c, p[1..]);
    }
  }

  /** The descendant of `d` that `p` leads to. */
  function At(d: Dir, p: seq<nat>): Dir
    requires IsPath(d, p)
    decreases |p|
  {
    if p == [] then d else At(d.subdirs[p[0]], p[1..])
  }

  /** `d` with the descendant `p` leads to removed from its parent's subdirectories. */
  function Without(d: Dir, p: seq<nat>): (r: Dir)
    requires IsPath(d, p) && p != []
    ensures r.name == d.name && r.files == d.files
    decreases |p|
  {
    var i := p[0];
    if |p| == 1 then d.(subdirs := d.subdirs[..i] + d.subdirs[i + 1..])
    else d.(subdirs := d.subdirs[i := Without(d.subdirs[i], p[1..])])
  }

  /** `os.path.basename(p)`: the text after the last `/`, which is all of `p` when it has none. */
  function Basename(p: string): (r: Name)
    ensures EndsWith(p, r)
  {
    var i := LastIndexOf(p, '/');
    p[i + 1..]
  }

  /**
   * The base name is exactly the suffix of `p` that holds no `/` and is
   * either all of `p` or preceded by a `/`.
   */
  lemma {:induction false} BasenameIsLastComponent(p: string, q: Name)
    ensures var r := Basename(p); |r| == |p| || p[|p| - |r| - 1] == '/'
    ensures q == Basename(p) <==> EndsWith(p, q) && (|q| == |p| || p[|p| - |q| - 1] == '/')
  {
    var i := LastIndexOf(p, '/');
    if EndsWith(p, q) && (|q| == |p| || p[|p| - |q| - 1] == '/') {
      var j := |p| - |q|;
      assert forall k :: j <= k < |p| ==> p[k] == q[k - j];
      if |q| == |p| {
        assert i == -1;
      } else {
        assert i == j - 1;
      }
    }
  }

  /** The last component of a joined path is the name that was joined. */
  lemma {:induction false} BasenameOfJoin(a: string, b: Name)
    ensures Basename(PathJoin(a, b)) == b
  {
    if a == "" {
      assert PathJoin(a, b) == b;
    } else if a[|a| - 1] == '/' {
      var x := a[..|a| - 1];
      assert a + b == x + ['/'] + b;
      LastIndexOfBefore(x, '/', b);
    } else {
      assert a + "/" + b == a + ['/'] + b;
      LastIndexOfBefore(a, '/', b);
    }
  }

  /** Every character of `s` is a dot (true of the empty string). */
  predicate AllDots(s: string)
  {
    forall k :: 0 <= k < |s| ==> s[k] == '.'
  }

  /**
   * The extension `os.path.splitext(name)` reports: the text from the last
   * dot on, provided some character before that dot is not a dot; otherwise
   * the empty string (so `.env` has none and `a.tar.gz` has `.gz`).
   */
  function Ext(name: Name): (e: string)
    ensures e == "" || (e[0] == '.' && '.' !in e[1..] && EndsWith(name, e) && !AllDots(name[..|name| - |e|]))
  {
    var d := LastIndexOf(name, '.');
    if d >= 0 && !AllDots(name[..d]) then name[d..] else ""
  }

  /** Conversely, a name made of a stem that is not all dots, a dot and a dot-free tail has that tail as its extension. */
  lemma {:induction false} ExtOfStem(stem: string, tail: string)
    requires '/' !in stem && '/' !in tail
    requires '.' !in tail && !AllDots(stem)
    ensures '/' !in stem + "." + tail
    ensures Ext(stem + "." + tail) == "." + tail
  {
    var n := stem + "." + tail;
    assert n == stem + ['.'] + tail;
    LastIndexOfBefore(stem, '.', tail);
    assert n[..|stem|] == stem;
    assert n[|stem|..] == "." + tail;
  }

  /** The extension as the classifiers compare it: lower-cased. */
  function LowerExt(name: Name): string
  {
    Lower(Ext(name))
  }
}
