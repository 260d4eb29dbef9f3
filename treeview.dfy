/**
 * `get_tree_view`: the indented listing of every directory the walk reaches
 * and of the files in it.
 */
module TreeView {
  import opened PyStr
  import opened FileTree
  import opened OsWalk

  /**
   * One line of the listing: a directory (`name/`, where `root` is its own
   * path) or a file (where `root` is the path of the directory holding it).
   */
  datatype Entry = Entry(level: nat, root: string, name: Name, isDir: bool)

  /** The text of one line: four spaces per level, the name, `/` for a directory. */
  function Line(e: Entry): string
  {
    Spaces(4 * e.level) + e.name + (if e.isDir then "/" else "") + "\n"
  }

  /** The listing, line after line. */
  function Render(es: seq<Entry>): string
  {
    if es == [] then "" else Render(es[..|es| - 1]) + Line(es[|es| - 1])
  }

  /** The file lines of one step: every file but the output document. */
  function FileEntries(level: nat, root: string, files: seq<Name>): seq<Entry>
  {
    if files == [] then []
    else
      var f := files[|files| - 1];
      FileEntries(level, root, files[..|files| - 1]) + (if f == OutputFile then [] else [Entry(level, root, f, false)])
  }

  /** The lines one step of the walk contributes. */
  function VisitEntries(v: Visit, ignored: string -> bool, skipGit: bool): seq<Entry>
  {
    if SkipsRoot(v.root, skipGit) then []
    else [Entry(v.level, v.root, Basename(v.root), true)] + FileEntries(v.level + 1, v.root, KeptFiles(v.root, v.files, ignored))
  }

  /** A step at a root that is not skipped lists the root, then its files. */
  lemma {:induction false} VisitEntriesListed(v: Visit, ignored: string -> bool, skipGit: bool)
    requires !SkipsRoot(v.root, skipGit)
    ensures VisitEntries(v, ignored, skipGit)
         == [Entry(v.level, v.root, Basename(v.root), true)] + FileEntries(v.level + 1, v.root, KeptFiles(v.root, v.files, ignored))
  {
  }

  /** The lines of a sequence of steps, in order. */
  function EntriesOf(vs: seq<Visit>, ignored: string -> bool, skipGit: bool): seq<Entry>
  {
    if vs == [] then [] else EntriesOf(vs[..|vs| - 1], ignored, skipGit) + VisitEntries(vs[|vs| - 1], ignored, skipGit)
  }

  /** The tree pass edits `dirs` when it does not skip the root. */
  function TreePruning(ignored: string -> bool, skipGit: bool): Pruning
  {
    Pruning(ignored, skipGit, true)
  }

  /** Every line of the tree view of `root`, found at path `directory`. */
  function TreeEntries(directory: string, root: Dir, ignored: string -> bool, skipGit: bool): seq<Entry>
  {
    EntriesOf(Walk(directory, root, 0, TreePruning(ignored, skipGit)), ignored, skipGit)
  }

  /** Rendering one more line appends its text. */
  lemma {:induction false} RenderSnoc(a: seq<Entry>, e: Entry)
    ensures Render(a + [e]) == Render(a) + Line(e)
  {
    assert (a + [e])[..|a|] == a;
  }

  /** One more file adds its line, unless it is the output document. */
  lemma {:induction false} FileEntriesSnoc(level: nat, root: string, files: seq<Name>, i: nat)
    requires i < |files|
    ensures FileEntries(level, root, files[..i + 1])
         == FileEntries(level, root, files[..i]) + (if files[i] == OutputFile then [] else [Entry(level, root, files[i], false)])
  {
    assert files[..i + 1][..i] == files[..i];
  }

  /** One more step adds its lines. */
  lemma {:induction false} EntriesOfSnoc(vs: seq<Visit>, v: Visit, ignored: string -> bool, skipGit: bool)
    ensures EntriesOf(vs + [v], ignored, skipGit) == EntriesOf(vs, ignored, skipGit) + VisitEntries(v, ignored, skipGit)
  {
    assert (vs + [v])[..|vs|] == vs;
  }

  /** The listing after one more step is the listing so far followed by that step's lines. */
  lemma {:induction false} RenderStep(vs: seq<Visit>, v: Visit, ignored: string -> bool, skipGit: bool)
    ensures Render(EntriesOf(vs + [v], ignored, skipGit))
         == Render(EntriesOf(vs, ignored, skipGit)) + Render(VisitEntries(v, ignored, skipGit))
  {
    EntriesOfSnoc(vs, v, ignored, skipGit);
    RenderAppend(EntriesOf(vs, ignored, skipGit), VisitEntries(v, ignored, skipGit));
  }

  /** Rendering distributes over concatenation. */
  lemma {:induction false} RenderAppend(a: seq<Entry>, b: seq<Entry>)
    ensures Render(a + b) == Render(a) + Render(b)
    decreases |b|
  {
    if b == [] {
      assert a + b == a;
    } else {
      var b', x := b[..|b| - 1], b[|b| - 1];
      RenderAppend(a, b');
      assert (a + b)[..|a + b| - 1] == a + b';
      assert (a + b)[|a + b| - 1] == x;
      SeqAssoc(Render(a), Render(b'), Line(x));
    }
  }

  /** The file lines of two runs of files, one after the other. */
  lemma {:induction false} FileEntriesAppend(level: nat, root: string, a: seq<Name>, b: seq<Name>)
    ensures FileEntries(level, root, a + b) == FileEntries(level, root, a) + FileEntries(level, root, b)
    decreases |b|
  {
    if b == [] {
      assert a + b == a;
    } else {
      var b', f := b[..|b| - 1], b[|b| - 1];
      FileEntriesAppend(level, root, a, b');
      assert (a + b)[..|a + b| - 1] == a + b';
      assert (a + b)[|a + b| - 1] == f;
      SeqAssoc(FileEntries(level, root, a), FileEntries(level, root, b'),
               if f == OutputFile then [] else [Entry(level, root, f, false)]);
    }
  }

  /**
   * The lines one step writes: the directory's own line at `level`, then a
   * line one level deeper for each file except the output document.
   */
  method ListStep(treeView: string, root: string, level: nat, files: seq<Name>) returns (out: string)
    ensures out == treeView + Render([Entry(level, root, Basename(root), true)] + FileEntries(level + 1, root, files))
  {
    var dirEntry := Entry(level, root, Basename(root), true);
    out := treeView + Line(dirEntry);
    RenderDirLine(treeView, dirEntry, level + 1, root, files);
    var i := 0;
    while i < |files|
      invariant 0 <= i <= |files|
      invariant out == treeView + Render([dirEntry] + FileEntries(level + 1, root, files[..i]))
    {
      var file := files[i];
      RenderFileStep(treeView, dirEntry, level + 1, root, files, i);
      if file != OutputFile {
        out := out + Line(Entry(level + 1, root, file, false));
      }
      i := i + 1;
    }
    assert files[..|files|] == files;
  }

  /** The directory's own line starts the text of its step. */
  lemma {:induction false} RenderDirLine(treeView: string, dirEntry: Entry, level: nat, root: string, files: seq<Name>)
    ensures treeView + Line(dirEntry) == treeView + Render([dirEntry] + FileEntries(level, root, files[..0]))
  {
    assert files[..0] == [];
    RenderSnoc([], dirEntry);
    assert [] + [dirEntry] == [dirEntry] + [];
  }

  /** One more file of a step adds its line to the text, unless it is the output document. */
  lemma {:induction false} RenderFileStep(treeView: string, dirEntry: Entry, level: nat, root: string, files: seq<Name>, i: nat)
    requires i < |files|
    ensures files[i] != OutputFile ==>
              (treeView + Render([dirEntry] + FileEntries(level, root, files[..i + 1]))
               == (treeView + Render([dirEntry] + FileEntries(level, root, files[..i]))) + Line(Entry(level, root, files[i], false)))
    ensures files[i] == OutputFile ==>
              (Render([dirEntry] + FileEntries(level, root, files[..i + 1]))
               == Render([dirEntry] + FileEntries(level, root, files[..i])))
  {
    var prefix := [dirEntry] + FileEntries(level, root, files[..i]);
    FileEntriesSnoc(level, root, files, i);
    if files[i] != OutputFile {
      var e := Entry(level, root, files[i], false);
      RenderSnoc(prefix, e);
      assert [dirEntry] + FileEntries(level, root, files[..i + 1]) == prefix + [e];
      SeqAssoc(treeView, Render(prefix), Line(e));
    } else {
      assert [dirEntry] + FileEntries(level, root, files[..i + 1]) == prefix;
    }
  }

  /**
   * The body of the loop over the walk, for the step at `rootPath`: a root
   * containing `.git` is skipped; otherwise `dirs` and `files` lose what the
   * ignore predicate matches and the step's lines are written.
   */
  method TreeStep(treeView: string, rootPath: string, level: nat, d: Dir, ignored: string -> bool, skipGit: bool)
    returns (out: string, dirs: seq<Dir>)
    ensures out == treeView + Render(VisitEntries(Visit(rootPath, level, d.files), ignored, skipGit))
    ensures dirs == DescendedDirs(rootPath, d.subdirs, TreePruning(ignored, skipGit))
  {
    var v := Visit(rootPath, level, d.files);
    dirs := d.subdirs;
    if SkipsRoot(rootPath, skipGit) {
      out := treeView;
      assert out == treeView + "";
      return;
    }
    dirs := KeptDirs(rootPath, dirs, ignored);
    var files := KeptFiles(v.root, v.files, ignored);
    out := ListStep(treeView, v.root, v.level, files);
    VisitEntriesListed(v, ignored, skipGit);
  }

  /**
   * `get_tree_view(directory, gitignore_file)`: the loop over the walk.
   * An absent ignore file is the predicate that matches nothing; `skipGit`
   * says whether the version skips roots containing `.git`.
   */
  method GetTreeView(directory: string, root: Dir, ignored: string -> bool, skipGit: bool)
    returns (treeView: string)
    ensures treeView == Render(TreeEntries(directory, root, ignored, skipGit))
  {
    treeView := "";
    ghost var pr := TreePruning(ignored, skipGit);
    ghost var walk := Walk(directory, root, 0, pr);
    ghost var visited: seq<Visit> := [];
    var stack := [Frame(directory, root, 0)];
    assert stack[..0] == [];
    while stack != []
      invariant visited + Pending(stack, pr) == walk
      invariant treeView == Render(EntriesOf(visited, ignored, skipGit))
      decreases |walk| - |visited|
    {
      var top := stack[|stack| - 1];
      var rest := stack[..|stack| - 1];
      ghost var v := Visit(top.path, top.level, top.dir.files);
      RenderStep(visited, v, ignored, skipGit);
      var dirs;
      treeView, dirs := TreeStep(treeView, top.path, top.level, top.dir, ignored, skipGit);
      var stack' := Resume(rest, top.path, dirs, top.level + 1, pr);
      StepKeepsWalk(visited, stack, top, rest, dirs, stack', pr, walk);
      visited := visited + [v];
      stack := stack';
    }
    assert visited == visited + Pending(stack, pr);
  }

  /** A file line is listed exactly for the files of the step other than the output document. */
  lemma {:induction false} FileEntriesMember(level: nat, root: string, files: seq<Name>, e: Entry)
    ensures e in FileEntries(level, root, files)
        <==> e.level == level && e.root == root && !e.isDir && e.name in files && e.name != OutputFile
    decreases |files|
  {
    if files != [] {
      var fs := files[..|files| - 1];
      FileEntriesMember(level, root, fs, e);
      assert files == fs + [files[|files| - 1]];
    }
  }

  /** A line is in the listing of some steps exactly when one of those steps lists it. */
  lemma {:induction false} EntriesOfMember(vs: seq<Visit>, e: Entry, ignored: string -> bool, skipGit: bool)
    ensures e in EntriesOf(vs, ignored, skipGit)
        <==> exists k :: 0 <= k < |vs| && e in VisitEntries(vs[k], ignored, skipGit)
  {
    if e in EntriesOf(vs, ignored, skipGit) {
      var k := EntriesOfListedBy(vs, e, ignored, skipGit);
    }
    if exists k :: 0 <= k < |vs| && e in VisitEntries(vs[k], ignored, skipGit) {
      var k :| 0 <= k < |vs| && e in VisitEntries(vs[k], ignored, skipGit);
      EntriesOfLists(vs, k, e, ignored, skipGit);
    }
  }

  /** The step that wrote a line, found by its index. */
  lemma {:induction false} EntriesOfListedBy(vs: seq<Visit>, e: Entry, ignored: string -> bool, skipGit: bool) returns (k: nat)
    requires e in EntriesOf(vs, ignored, skipGit)
    ensures k < |vs| && e in VisitEntries(vs[k], ignored, skipGit)
    decreases |vs|
  {
    var n := |vs| - 1;
    var ws := vs[..n];
    var head, last := EntriesOf(ws, ignored, skipGit), VisitEntries(vs[n], ignored, skipGit);
    assert EntriesOf(vs, ignored, skipGit) == head + last;
    if e in head {
      k := EntriesOfListedBy(ws, e, ignored, skipGit);
      assert vs[k] == ws[k];
    } else {
      k := n;
    }
  }

  lemma {:induction false} EntriesOfLists(vs: seq<Visit>, k: nat, e: Entry, ignored: string -> bool, skipGit: bool)
    requires k < |vs| && e in VisitEntries(vs[k], ignored, skipGit)
    ensures e in EntriesOf(vs, ignored, skipGit)
    decreases |vs|
  {
    if k < |vs| - 1 {
      var ws := vs[..|vs| - 1];
      assert ws[k] == vs[k];
      EntriesOfLists(ws, k, e, ignored, skipGit);
      EntriesOfInit(vs, e, ignored, skipGit);
    } else {
      EntriesOfLast(vs, e, ignored, skipGit);
    }
  }

  /** A line of the steps before the last is a line of them all. */
  lemma {:induction false} EntriesOfInit(vs: seq<Visit>, e: Entry, ignored: string -> bool, skipGit: bool)
    requires vs != [] && e in EntriesOf(vs[..|vs| - 1], ignored, skipGit)
    ensures e in EntriesOf(vs, ignored, skipGit)
  {
  }

  /** A line of the last step is a line of them all. */
  lemma {:induction false} EntriesOfLast(vs: seq<Visit>, e: Entry, ignored: string -> bool, skipGit: bool)
    requires vs != [] && e in VisitEntries(vs[|vs| - 1], ignored, skipGit)
    ensures e in EntriesOf(vs, ignored, skipGit)
  {
  }

  /** Listing two runs of steps is listing one, then the other. */
  lemma {:induction false} EntriesOfAppend(a: seq<Visit>, b: seq<Visit>, ignored: string -> bool, skipGit: bool)
    ensures EntriesOf(a + b, ignored, skipGit) == EntriesOf(a, ignored, skipGit) + EntriesOf(b, ignored, skipGit)
    decreases |b|
  {
    if b == [] {
      assert a + b == a;
    } else {
      var b', x := b[..|b| - 1], b[|b| - 1];
      assert b == b' + [x];
      assert a + b == (a + b') + [x];
      EntriesOfAppend(a, b', ignored, skipGit);
      EntriesOfSnoc(a + b', x, ignored, skipGit);
      EntriesOfSnoc(b', x, ignored, skipGit);
      SeqAssoc(EntriesOf(a, ignored, skipGit), EntriesOf(b', ignored, skipGit), VisitEntries(x, ignored, skipGit));
    }
  }

  /** What a line of one step says about that step. */
  lemma {:induction false} VisitEntriesSound(v: Visit, ignored: string -> bool, skipGit: bool, e: Entry)
    requires e in VisitEntries(v, ignored, skipGit)
    ensures !SkipsRoot(v.root, skipGit) && e.root == v.root
    ensures e.isDir ==> e.level == v.level && e.name == Basename(e.root)
    ensures !e.isDir ==> e.level == v.level + 1 && e.name in v.files && e.name != OutputFile
                         && !ignored(PathJoin(e.root, e.name))
  {
    var files := KeptFiles(v.root, v.files, ignored);
    var dirEntry := Entry(v.level, v.root, Basename(v.root), true);
    VisitEntriesListed(v, ignored, skipGit);
    if e != dirEntry {
      assert e in FileEntries(v.level + 1, v.root, files);
      FileEntriesMember(v.level + 1, v.root, files, e);
    }
  }

  /** What a line of a run of steps says about the step that wrote it. */
  lemma {:induction false} EntriesOfSound(vs: seq<Visit>, ignored: string -> bool, skipGit: bool, e: Entry)
    requires e in EntriesOf(vs, ignored, skipGit)
    ensures exists v :: v in vs && !SkipsRoot(v.root, skipGit) && v.root == e.root
              && (if e.isDir then v.level == e.level && e.name == Basename(e.root)
                  else v.level + 1 == e.level && e.name in v.files && e.name != OutputFile
                       && !ignored(PathJoin(e.root, e.name)))
  {
    EntriesOfMember(vs, e, ignored, skipGit);
    var k :| 0 <= k < |vs| && e in VisitEntries(vs[k], ignored, skipGit);
    VisitEntriesSound(vs[k], ignored, skipGit, e);
    assert vs[k] in vs;
  }

  /**
   * Soundness of the listing: every line comes from a step of the walk at a
   * root that is not skipped and is the top or not ignored; a directory line
   * names its own root, a file line one of its root's files that is neither
   * ignored nor the output document.
   */
  lemma {:induction false} TreeEntriesSound(directory: string, root: Dir, ignored: string -> bool, skipGit: bool, e: Entry)
    requires e in TreeEntries(directory, root, ignored, skipGit)
    ensures !SkipsRoot(e.root, skipGit)
    ensures e.root == directory || !ignored(e.root)
    ensures e.isDir ==> e.name == Basename(e.root)
    ensures !e.isDir ==> e.name != OutputFile && !ignored(PathJoin(e.root, e.name))
    ensures exists v :: v in Walk(directory, root, 0, TreePruning(ignored, skipGit)) && v.root == e.root
              && (if e.isDir then v.level == e.level else v.level + 1 == e.level && e.name in v.files)
  {
    var walk := Walk(directory, root, 0, TreePruning(ignored, skipGit));
    EntriesOfSound(walk, ignored, skipGit, e);
    WalkRootsNotIgnored(directory, root, 0, TreePruning(ignored, skipGit));
  }

  /** Completeness of the listing of a run of steps: each step not skipped writes its own line and its files' lines. */
  lemma {:induction false} EntriesOfComplete(vs: seq<Visit>, v: Visit, ignored: string -> bool, skipGit: bool, f: Name)
    requires v in vs && !SkipsRoot(v.root, skipGit)
    ensures Entry(v.level, v.root, Basename(v.root), true) in EntriesOf(vs, ignored, skipGit)
    ensures f in v.files && f != OutputFile && !ignored(PathJoin(v.root, f))
            ==> Entry(v.level + 1, v.root, f, false) in EntriesOf(vs, ignored, skipGit)
  {
    var k :| 0 <= k < |vs| && vs[k] == v;
    var files := KeptFiles(v.root, v.files, ignored);
    var fe := Entry(v.level + 1, v.root, f, false);
    VisitEntriesListed(v, ignored, skipGit);
    EntriesOfLists(vs, k, Entry(v.level, v.root, Basename(v.root), true), ignored, skipGit);
    if f in v.files && f != OutputFile && !ignored(PathJoin(v.root, f)) {
      FileEntriesMember(v.level + 1, v.root, files, fe);
      assert fe in VisitEntries(v, ignored, skipGit);
      EntriesOfLists(vs, k, fe, ignored, skipGit);
    }
  }

  /**
   * Completeness of the tree view: every step of the walk at a root not
   * skipped lists that root, and every one of its files that is neither
   * ignored nor the output document one level deeper.
   */
  lemma {:induction false} TreeEntriesComplete(directory: string, root: Dir, ignored: string -> bool, skipGit: bool,
                                               v: Visit, f: Name)
    requires v in Walk(directory, root, 0, TreePruning(ignored, skipGit)) && !SkipsRoot(v.root, skipGit)
    ensures Entry(v.level, v.root, Basename(v.root), true) in TreeEntries(directory, root, ignored, skipGit)
    ensures f in v.files && f != OutputFile && !ignored(PathJoin(v.root, f))
            ==> Entry(v.level + 1, v.root, f, false) in TreeEntries(directory, root, ignored, skipGit)
  {
    EntriesOfComplete(Walk(directory, root, 0, TreePruning(ignored, skipGit)), v, ignored, skipGit, f);
  }

  /**
   * The level of a directory line is its nesting depth, whatever text the
   * directory argument has: a descendant the walk reaches along `p` and that
   * is not skipped is listed `|p|` levels below the top.
   */
  lemma {:induction false} ListedAtDepth(directory: string, root: Dir, ignored: string -> bool, skipGit: bool, p: seq<nat>)
    requires IsPath(root, p) && Reaches(directory, root, p, TreePruning(ignored, skipGit))
    requires !SkipsRoot(PathName(directory, root, p), skipGit)
    ensures Entry(|p|, PathName(directory, root, p), Basename(PathName(directory, root, p)), true)
            in TreeEntries(directory, root, ignored, skipGit)
  {
    var pr := TreePruning(ignored, skipGit);
    WalkVisitsDescendant(directory, root, 0, pr, p);
    TreeEntriesComplete(directory, root, ignored, skipGit, Visit(PathName(directory, root, p), |p|, At(root, p).files), OutputFile);
  }

  /** Conversely, every directory line is at the nesting depth of the descendant it names. */
  lemma {:induction false} DirLineAtDepth(directory: string, root: Dir, ignored: string -> bool, skipGit: bool, e: Entry)
    requires e in TreeEntries(directory, root, ignored, skipGit) && e.isDir
    ensures exists p :: IsPath(root, p) && Reaches(directory, root, p, TreePruning(ignored, skipGit))
                        && e.root == PathName(directory, root, p) && e.level == |p|
  {
    var pr := TreePruning(ignored, skipGit);
    TreeEntriesSound(directory, root, ignored, skipGit, e);
    var v :| v in Walk(directory, root, 0, pr) && v.root == e.root && v.level == e.level;
    WalkStepIsDescendant(directory, root, 0, pr, v);
  }

  /**
   * Unless the top itself is skipped, a subdirectory of the top that the
   * ignore predicate matches contributes nothing: the tree view is the one of
   * the top without it.
   */
  lemma {:induction false} IgnoredSubdirInvisible(directory: string, root: Dir, ignored: string -> bool, skipGit: bool, i: nat)
    requires i < |root.subdirs| && !SkipsRoot(directory, skipGit) && ignored(PathJoin(directory, root.subdirs[i].name))
    ensures TreeEntries(directory, root.(subdirs := root.subdirs[..i] + root.subdirs[i + 1..]), ignored, skipGit)
         == TreeEntries(directory, root, ignored, skipGit)
  {
    PrunedChildInvisible(directory, root, 0, TreePruning(ignored, skipGit), i);
  }

  /**
   * The same at any depth: a descendant whose path the ignore predicate
   * matches contributes nothing, neither its own lines nor those of anything
   * below it, unless the directory holding it is skipped as a `.git` root
   * and so never edits its `dirs`.
   */
  lemma {:induction false} IgnoredDescendantInvisible(directory: string, root: Dir, ignored: string -> bool, skipGit: bool,
                                                      p: seq<nat>)
    requires IsPath(root, p) && p != []
    requires ignored(PathName(directory, root, p)) && !SkipsRoot(ParentName(directory, root, p), skipGit)
    ensures TreeEntries(directory, Without(root, p), ignored, skipGit) == TreeEntries(directory, root, ignored, skipGit)
  {
    PrunedDescendantInvisible(directory, root, 0, TreePruning(ignored, skipGit), p);
  }

  /**
   * A `.github` directory the ignore file matches is pruned by the top's
   * `dirs[:]` edit, although its own path contains `.git`.
   */
  lemma {:induction false} IgnoredGithubInvisible(root: Dir, ignored: string -> bool, i: nat)
    requires i < |root.subdirs| && root.subdirs[i].name == ".github" && ignored("r/.github")
    ensures TreeEntries("r", Without(root, [i]), ignored, true) == TreeEntries("r", root, ignored, true)
  {
    assert PathName("r", root, [i]) == PathName("r/.github", root.subdirs[i], []);
    assert !Contains("r", ".git");
    IgnoredDescendantInvisible("r", root, ignored, true, [i]);
  }

  /** The output document adds no file line, wherever it sits. */
  lemma {:induction false} FileEntriesAround(level: nat, root: string, x: seq<Name>, o: seq<Name>, y: seq<Name>)
    requires o == [] || o == [OutputFile]
    ensures FileEntries(level, root, x + o + y) == FileEntries(level, root, x + y)
  {
    FileEntriesAppend(level, root, x + o, y);
    FileEntriesAppend(level, root, x, o);
    FileEntriesAppend(level, root, x, y);
    assert o == [] ==> x + o == x;
    assert o == [OutputFile] ==> o[..0] == [];
  }

  /** The same after filtering: the kept files with the output document among them have the same lines. */
  lemma {:induction false} KeptEntriesAround(level: nat, root: string, a: seq<Name>, b: seq<Name>, ignored: string -> bool)
    ensures FileEntries(level, root, KeptFiles(root, a + [OutputFile] + b, ignored))
         == FileEntries(level, root, KeptFiles(root, a + b, ignored))
  {
    var ka, ko, kb := KeptFiles(root, a, ignored), KeptFiles(root, [OutputFile], ignored), KeptFiles(root, b, ignored);
    KeptFilesAround(root, a, OutputFile, b, ignored);
    KeptFilesAppend(root, a, b, ignored);
    FileEntriesAround(level, root, ka, ko, kb);
  }

  /** Two steps at the same root and level whose kept files have the same lines write the same lines. */
  lemma {:induction false} VisitEntriesSame(v: Visit, w: Visit, ignored: string -> bool, skipGit: bool)
    requires v.root == w.root && v.level == w.level
    requires FileEntries(v.level + 1, v.root, KeptFiles(v.root, v.files, ignored))
          == FileEntries(w.level + 1, w.root, KeptFiles(w.root, w.files, ignored))
    ensures VisitEntries(v, ignored, skipGit) == VisitEntries(w, ignored, skipGit)
  {
    if !SkipsRoot(v.root, skipGit) {
      VisitEntriesListed(v, ignored, skipGit);
      VisitEntriesListed(w, ignored, skipGit);
    }
  }

  /** A step with the output document among its files writes the lines it writes without it. */
  lemma {:induction false} VisitEntriesAround(root: string, level: nat, a: seq<Name>, b: seq<Name>, ignored: string -> bool,
                                              skipGit: bool)
    ensures VisitEntries(Visit(root, level, a + [OutputFile] + b), ignored, skipGit)
         == VisitEntries(Visit(root, level, a + b), ignored, skipGit)
  {
    KeptEntriesAround(level + 1, root, a, b, ignored);
    VisitEntriesSame(Visit(root, level, a + [OutputFile] + b), Visit(root, level, a + b), ignored, skipGit);
  }

  /** The lines of a first step, then those of the rest. */
  lemma {:induction false} EntriesOfCons(v: Visit, vs: seq<Visit>, ignored: string -> bool, skipGit: bool)
    ensures EntriesOf([v] + vs, ignored, skipGit) == VisitEntries(v, ignored, skipGit) + EntriesOf(vs, ignored, skipGit)
  {
    EntriesOfAppend([v], vs, ignored, skipGit);
    var e := VisitEntries(v, ignored, skipGit);
    assert [v][..0] == [] && [v][0] == v;
    assert EntriesOf([v], ignored, skipGit) == [] + e;
    assert [] + e == e;
  }

  /**
   * The output document, wherever it sits among the top's files, adds no
   * line: summarizing a directory that already holds it lists the same tree.
   */
  lemma {:induction false} OutputFileNotListed(directory: string, root: Dir, ignored: string -> bool, skipGit: bool,
                                               a: seq<Name>, b: seq<Name>)
    requires root.files == a + b
    ensures TreeEntries(directory, root.(files := a + [OutputFile] + b), ignored, skipGit)
         == TreeEntries(directory, root, ignored, skipGit)
  {
    var rest := WalkAll(directory, root.subdirs, 1, TreePruning(ignored, skipGit));
    EntriesOfCons(Visit(directory, 0, a + b), rest, ignored, skipGit);
    EntriesOfCons(Visit(directory, 0, a + [OutputFile] + b), rest, ignored, skipGit);
    VisitEntriesAround(directory, 0, a, b, ignored, skipGit);
  }

  /** Steps that are all skipped write nothing. */
  lemma {:induction false} EntriesOfSkipped(vs: seq<Visit>, ignored: string -> bool, skipGit: bool)
    requires forall v :: v in vs ==> SkipsRoot(v.root, skipGit)
    ensures EntriesOf(vs, ignored, skipGit) == []
    decreases |vs|
  {
    if vs != [] {
      var ws := vs[..|vs| - 1];
      assert forall v :: v in ws ==> v in vs;
      assert vs[|vs| - 1] in vs;
      EntriesOfSkipped(ws, ignored, skipGit);
    }
  }

  /**
   * With `.git` roots skipped, a `.git` subdirectory of the top contributes
   * nothing, whatever the ignore predicate says about it.
   */
  lemma {:induction false} GitSubdirInvisible(directory: string, root: Dir, ignored: string -> bool, i: nat)
    requires i < |root.subdirs| && root.subdirs[i].name == ".git"
    ensures TreeEntries(directory, root.(subdirs := root.subdirs[..i] + root.subdirs[i + 1..]), ignored, true)
         == TreeEntries(directory, root, ignored, true)
  {
    var pr := TreePruning(ignored, true);
    var ds := root.subdirs;
    var g := ds[i];
    var a, b := ds[..i], ds[i + 1..];
    assert ds == a + ([g] + b);
    WalkAllAppend(directory, a, [g] + b, 1, pr);
    WalkAllCons(directory, [g] + b, 1, pr);
    assert ([g] + b)[1..] == b;
    WalkAllAppend(directory, a, b, 1, pr);
    var wg := WalkChild(directory, g, 1, pr);
    if Descends(directory, g.name, pr) {
      var gp := PathJoin(directory, g.name);
      BasenameOfJoin(directory, g.name);
      EndsWithContains(gp, ".git");
      WalkRootsContain(gp, g, 1, pr, ".git");
    }
    EntriesOfSkipped(wg, ignored, true);
    var top := [Visit(directory, 0, root.files)];
    var wa, wb := WalkAll(directory, a, 1, pr), WalkAll(directory, b, 1, pr);
    GitSubdirSplice(top, wa, wg, wb, ignored);
  }

  /** Dropping a run of steps that writes nothing from the middle of a walk leaves its listing alone. */
  lemma {:induction false} GitSubdirSplice(top: seq<Visit>, wa: seq<Visit>, wg: seq<Visit>, wb: seq<Visit>, ignored: string -> bool)
    requires EntriesOf(wg, ignored, true) == []
    ensures EntriesOf(top + (wa + wb), ignored, true) == EntriesOf(top + (wa + (wg + wb)), ignored, true)
  {
    var eb := EntriesOf(wb, ignored, true);
    EntriesOfAppend(wg, wb, ignored, true);
    assert [] + eb == eb;
    assert EntriesOf(wg + wb, ignored, true) == eb;
    EntriesOfAppend(wa, wb, ignored, true);
    EntriesOfAppend(wa, wg + wb, ignored, true);
    assert EntriesOf(wa + (wg + wb), ignored, true) == EntriesOf(wa + wb, ignored, true);
    EntriesOfAppend(top, wa + wb, ignored, true);
    EntriesOfAppend(top, wa + (wg + wb), ignored, true);
  }

  /**
   * The level `get_tree_view` computes for the step at `root`:
   * `root.replace(directory, '').count(os.sep)`, with the POSIX `os.sep`.
   * The listing in this module uses the step's nesting depth instead.
   */
  function SourceLevel(directory: string, root: string): nat
  {
    CountChar(RemoveAll(root, directory), '/')
  }

  /** When the top's path holds no `/`, the computed level is the number of `/` in the step's path. */
  lemma {:induction false} SourceLevelNoSlash(directory: string, root: string)
    requires '/' !in directory
    ensures SourceLevel(directory, root) == CountChar(root, '/')
  {
    CountRemoveAll(root, directory, '/');
  }

  /**
   * Given as `a`, the top's subdirectory `b` is at level 1; given as `a/`, the
   * same subdirectory, at `a/b`, is at level 0 like the top itself, so its
   * line is not indented under the top's.
   */
  lemma {:induction false} SourceLevelTrailingSlash()
    ensures PathJoin("a", "b") == "a/b" && SourceLevel("a", "a") == 0 && SourceLevel("a", "a/b") == 1
    ensures PathJoin("a/", "b") == "a/b" && SourceLevel("a/", "a/") == 0 && SourceLevel("a/", "a/b") == 0
  {
    assert StartsWith("a/b", "a/");
    assert "a/b"[2..] == "b";
    assert !StartsWith("b", "a/");
    assert RemoveAll("a/b", "a/") == "b";
    assert CountChar("b", '/') == 0;
    SourceLevelNoSlash("a", "a/b");
    SourceLevelNoSlash("a", "a");
    assert CountChar("a/b", '/') == 1 by {
      assert "a/b" == "a" + "/b";
      CountCharAppend("a", "/b", '/');
      assert "/b"[1..] == "b";
    }
  }

  /**
   * Given as `x/y`, with a subdirectory `x` holding a subdirectory `y`: the
   * grandchild's path `x/y/x/y` holds the top's path twice, both occurrences
   * are removed, and it gets level 1 like its parent `x/y/x`, not level 2.
   */
  lemma {:induction false} SourceLevelRecurringDirectory()
    ensures PathJoin("x/y", "x") == "x/y/x" && PathJoin("x/y/x", "y") == "x/y/x/y"
    ensures SourceLevel("x/y", "x/y") == 0 && SourceLevel("x/y", "x/y/x") == 1 && SourceLevel("x/y", "x/y/x/y") == 1
  {
    assert StartsWith("x/y", "x/y");
    assert "x/y"[3..] == "";
    assert StartsWith("x/y/x", "x/y") && "x/y/x"[3..] == "/x";
    assert !StartsWith("/x", "x/y") && "/x"[1..] == "x";
    assert !StartsWith("x", "x/y") && "x"[1..] == "";
    assert RemoveAll("x/y/x", "x/y") == "/x";
    assert StartsWith("x/y/x/y", "x/y") && "x/y/x/y"[3..] == "/x/y";
    assert !StartsWith("/x/y", "x/y") && "/x/y"[1..] == "x/y";
    assert RemoveAll("x/y/x/y", "x/y") == "/";
    assert CountChar("/x", '/') == 1 by {
      assert "/x"[1..] == "x";
    }
  }

  /**
   * A subdirectory of the top that is neither ignored nor skipped is listed
   * one level below the top, so four spaces further in, whatever form the
   * top's path takes (a trailing `/` included).
   */
  lemma {:induction false} SubdirListedOneDeeper(directory: string, root: Dir, ignored: string -> bool, skipGit: bool, c: Dir)
    requires c in root.subdirs && !ignored(PathJoin(directory, c.name)) && !SkipsRoot(PathJoin(directory, c.name), skipGit)
    ensures Entry(1, PathJoin(directory, c.name), c.name, true) in TreeEntries(directory, root, ignored, skipGit)
    ensures !SkipsRoot(directory, skipGit)
            ==> Entry(0, directory, Basename(directory), true) in TreeEntries(directory, root, ignored, skipGit)
  {
    var pr := TreePruning(ignored, skipGit);
    var p := PathJoin(directory, c.name);
    WalkVisitsChild(directory, root, 0, pr, c);
    BasenameOfJoin(directory, c.name);
    TreeEntriesComplete(directory, root, ignored, skipGit, Visit(p, 1, c.files), c.name);
    if !SkipsRoot(directory, skipGit) {
      assert Walk(directory, root, 0, pr)[0] == Visit(directory, 0, root.files);
      TreeEntriesComplete(directory, root, ignored, skipGit, Visit(directory, 0, root.files), c.name);
    }
  }
}
