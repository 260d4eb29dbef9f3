/**
 * `os.walk(top)` in its default top-down order. The walk keeps a stack of
 * directories still to list; it pops one, yields `(root, dirs, files)`, and
 * once the consumer has run its loop body it pushes the subdirectories left in
 * `dirs`, last first, so that they are listed in order. A consumer that
 * rewrites `dirs[:]` therefore decides which subtrees are walked at all.
 */
module OsWalk {
  import opened PyStr
  import opened FileTree

  /** One step of the walk: its `root` path, its nesting depth below the top, and its `files`. */
  datatype Visit = Visit(root: string, level: nat, files: seq<Name>)

  /**
   * How a consumer edits `dirs` before the walk resumes: when `enabled`, every
   * subdirectory whose path `ignored` matches is removed, except at a root the
   * consumer skips as a `.git` root (it `continue`s before editing `dirs`).
   */
  datatype Pruning = Pruning(ignored: string -> bool, skipGit: bool, enabled: bool)

  /** `'.git' in root`, the test with which two versions skip a whole step. */
  predicate SkipsRoot(root: string, skipGit: bool)
  {
    skipGit && Contains(root, ".git")
  }

  /** `[f for f in files if not gitignore(os.path.join(root, f))]` */
  function KeptFiles(root: string, files: seq<Name>, ignored: string -> bool): (r: seq<Name>)
    ensures forall f :: f in r <==> f in files && !ignored(PathJoin(root, f))
  {
    if files == [] then []
    else (if ignored(PathJoin(root, files[0])) then [] else [files[0]]) + KeptFiles(root, files[1..], ignored)
  }

  /** Filtering two runs of files is filtering one, then the other. */
  lemma {:induction false} KeptFilesAppend(root: string, a: seq<Name>, b: seq<Name>, ignored: string -> bool)
    ensures KeptFiles(root, a + b, ignored) == KeptFiles(root, a, ignored) + KeptFiles(root, b, ignored)
    decreases |a|
  {
    if a == [] {
      assert a + b == b;
    } else {
      var c, h := a + b, if ignored(PathJoin(root, a[0])) then [] else [a[0]];
      KeptFilesAppend(root, a[1..], b, ignored);
      var t := a[1..] + b;
      assert a == [a[0]] + a[1..];
      SeqAssoc([a[0]], a[1..], b);
      assert c == [a[0]] + t;
      assert c[0] == a[0] && c[1..] == t;
      assert KeptFiles(root, c, ignored) == h + KeptFiles(root, c[1..], ignored);
      assert KeptFiles(root, a, ignored) == h + KeptFiles(root, a[1..], ignored);
      SeqAssoc(h, KeptFiles(root, a[1..], ignored), KeptFiles(root, b, ignored));
    }
  }

  /** Filtering files with one name in their midst keeps that name or drops it, and filters the rest as before. */
  lemma {:induction false} KeptFilesAround(root: string, a: seq<Name>, f: Name, b: seq<Name>, ignored: string -> bool)
    ensures var o := KeptFiles(root, [f], ignored);
            KeptFiles(root, a + [f] + b, ignored) == KeptFiles(root, a, ignored) + o + KeptFiles(root, b, ignored)
            && (o == [] || o == [f])
  {
    KeptFilesAppend(root, a + [f], b, ignored);
    KeptFilesAppend(root, a, [f], ignored);
    assert [f][1..] == [];
  }

  /** `[d for d in dirs if not gitignore(os.path.join(root, d))]` */
  function KeptDirs(root: string, ds: seq<Dir>, ignored: string -> bool): (r: seq<Dir>)
    ensures forall d :: d in r <==> d in ds && !ignored(PathJoin(root, d.name))
  {
    if ds == [] then []
    else (if ignored(PathJoin(root, ds[0].name)) then [] else [ds[0]]) + KeptDirs(root, ds[1..], ignored)
  }

  /** Whether the walk goes on into subdirectory `name` of `root`. */
  predicate Descends(root: string, name: Name, pr: Pruning)
  {
    !pr.enabled || SkipsRoot(root, pr.skipGit) || !pr.ignored(PathJoin(root, name))
  }

  /** What is left of `dirs` when the walk resumes after the step at `root`. */
  function DescendedDirs(root: string, ds: seq<Dir>, pr: Pruning): seq<Dir>
  {
    if !pr.enabled || SkipsRoot(root, pr.skipGit) then ds else KeptDirs(root, ds, pr.ignored)
  }

  /** The steps of the walk of directory `d` found at path `root`, in pre-order. */
  function Walk(root: string, d: Dir, level: nat, pr: Pruning): seq<Visit>
    decreases d
  {
    [Visit(root, level, d.files)] + WalkAll(root, d.subdirs, level + 1, pr)
  }

  /** The walks of those subdirectories of `parent` the walk descends into, one after the other. */
  function WalkAll(parent: string, ds: seq<Dir>, level: nat, pr: Pruning): seq<Visit>
    decreases ds
  {
    if ds == [] then []
    else
      (if Descends(parent, ds[0].name, pr) then Walk(PathJoin(parent, ds[0].name), ds[0], level, pr) else [])
      + WalkAll(parent, ds[1..], level, pr)
  }

  /** The walks of every directory in `ds`, one after the other. */
  function WalkEach(parent: string, ds: seq<Dir>, level: nat, pr: Pruning): seq<Visit>
  {
    if ds == [] then []
    else Walk(PathJoin(parent, ds[0].name), ds[0], level, pr) + WalkEach(parent, ds[1..], level, pr)
  }

  /** Walking what is left of `dirs` after the edit is walking the subdirectories the walk descends into. */
  lemma {:induction false} WalkAllIsWalkEach(parent: string, ds: seq<Dir>, level: nat, pr: Pruning)
    ensures WalkAll(parent, ds, level, pr) == WalkEach(parent, DescendedDirs(parent, ds, pr), level, pr)
  {
    if ds != [] {
      WalkAllIsWalkEach(parent, ds[1..], level, pr);
      var x := ds[0];
      if !pr.enabled || SkipsRoot(parent, pr.skipGit) {
        assert Descends(parent, x.name, pr);
      } else if pr.ignored(PathJoin(parent, x.name)) {
        assert KeptDirs(parent, ds, pr.ignored) == KeptDirs(parent, ds[1..], pr.ignored);
      } else {
        var rest := KeptDirs(parent, ds[1..], pr.ignored);
        assert KeptDirs(parent, ds, pr.ignored) == [x] + rest;
        assert ([x] + rest)[1..] == rest;
      }
    }
  }

  /** A directory on the walk's stack, still to be listed. */
  datatype Frame = Frame(path: string, dir: Dir, level: nat)

  /** The steps still to come from a stack whose top is its last element. */
  function Pending(stack: seq<Frame>, pr: Pruning): (r: seq<Visit>)
    ensures stack != [] ==> |r| >= 1
  {
    if stack == [] then []
    else
      var top := stack[|stack| - 1];
      Walk(top.path, top.dir, top.level, pr) + Pending(stack[..|stack| - 1], pr)
  }

  /**
   * Popping the top frame yields its step; what follows is the walk of what is
   * left of its `dirs`, then the rest of the stack.
   */
  lemma {:induction false} PendingStep(stack: seq<Frame>, pr: Pruning)
    requires stack != []
    ensures var top := stack[|stack| - 1];
            Pending(stack, pr)
            == [Visit(top.path, top.level, top.dir.files)]
             + WalkEach(top.path, DescendedDirs(top.path, top.dir.subdirs, pr), top.level + 1, pr)
             + Pending(stack[..|stack| - 1], pr)
  {
    var top := stack[|stack| - 1];
    WalkAllIsWalkEach(top.path, top.dir.subdirs, top.level + 1, pr);
  }

  /**
   * The loop over the walk keeps `visited + Pending(stack) == walk`: popping
   * the top, recording its step and resuming with what is left of its `dirs`
   * preserves it.
   */
  lemma {:induction false} StepKeepsWalk(visited: seq<Visit>, stack: seq<Frame>, top: Frame, rest: seq<Frame>,
                                         dirs: seq<Dir>, stack': seq<Frame>, pr: Pruning, walk: seq<Visit>)
    requires stack != [] && top == stack[|stack| - 1] && rest == stack[..|stack| - 1]
    requires visited + Pending(stack, pr) == walk
    requires dirs == DescendedDirs(top.path, top.dir.subdirs, pr)
    requires Pending(stack', pr) == WalkEach(top.path, dirs, top.level + 1, pr) + Pending(rest, pr)
    ensures (visited + [Visit(top.path, top.level, top.dir.files)]) + Pending(stack', pr) == walk
  {
    var v := Visit(top.path, top.level, top.dir.files);
    var w := WalkEach(top.path, dirs, top.level + 1, pr);
    PendingStep(stack, pr);
    SeqAssoc(visited, [v], w + Pending(rest, pr));
    SeqAssoc([v], w, Pending(rest, pr));
  }

  /**
   * The walk resuming after a step at `root`: `for name in reversed(dirs):
   * stack.append(os.path.join(root, name))`.
   */
  method Resume(stack: seq<Frame>, root: string, dirs: seq<Dir>, level: nat, ghost pr: Pruning)
    returns (stack': seq<Frame>)
    ensures Pending(stack', pr) == WalkEach(root, dirs, level, pr) + Pending(stack, pr)
  {
    stack' := stack;
    var j := |dirs|;
    while j > 0
      invariant 0 <= j <= |dirs|
      invariant Pending(stack', pr) == WalkEach(root, dirs[j..], level, pr) + Pending(stack, pr)
    {
      j := j - 1;
      var f := Frame(PathJoin(root, dirs[j].name), dirs[j], level);
      assert (stack' + [f])[..|stack'|] == stack';
      assert dirs[j..][1..] == dirs[j + 1..];
      stack' := stack' + [f];
    }
  }

  /**
   * With pruning on, no step is at a path the ignore predicate matches, except
   * the top itself and roots skipped as `.git` roots.
   */
  lemma {:induction false} WalkRootsNotIgnored(root: string, d: Dir, level: nat, pr: Pruning)
    requires pr.enabled
    ensures forall v :: v in Walk(root, d, level, pr) ==>
              v.root == root || !pr.ignored(v.root) || SkipsRoot(v.root, pr.skipGit)
    decreases d
  {
    WalkAllRootsNotIgnored(root, d.subdirs, level + 1, pr);
  }

  /** The same, for the subdirectories of `parent`: here not even `parent` is excepted. */
  lemma {:induction false} WalkAllRootsNotIgnored(parent: string, ds: seq<Dir>, level: nat, pr: Pruning)
    requires pr.enabled
    ensures forall v :: v in WalkAll(parent, ds, level, pr) ==>
              !pr.ignored(v.root) || SkipsRoot(v.root, pr.skipGit)
    decreases ds
  {
    if ds != [] {
      var x := ds[0];
      var p := PathJoin(parent, x.name);
      WalkAllRootsNotIgnored(parent, ds[1..], level, pr);
      if Descends(parent, x.name, pr) {
        WalkRootsNotIgnored(p, x, level, pr);
        if SkipsRoot(parent, pr.skipGit) {
          PathJoinContains(parent, x.name, ".git");
        }
      }
    }
  }

  /** Every subdirectory of the top the walk descends into is walked, one level down; without pruning, all of them are. */
  lemma {:induction false} WalkVisitsChild(root: string, d: Dir, level: nat, pr: Pruning, c: Dir)
    requires c in d.subdirs && Descends(root, c.name, pr)
    ensures Visit(PathJoin(root, c.name), level + 1, c.files) in Walk(root, d, level, pr)
  {
    WalkAllVisits(root, d.subdirs, level + 1, pr, c);
  }

  lemma {:induction false} WalkAllVisits(parent: string, ds: seq<Dir>, level: nat, pr: Pruning, c: Dir)
    requires c in ds && Descends(parent, c.name, pr)
    ensures Visit(PathJoin(parent, c.name), level, c.files) in WalkAll(parent, ds, level, pr)
  {
    if ds[0] != c {
      WalkAllVisits(parent, ds[1..], level, pr, c);
    }
  }

  /**
   * A subdirectory the walk does not descend into contributes nothing: the
   * walk is the same as if it were not there at all.
   */
  lemma {:induction false} PrunedChildInvisible(root: string, d: Dir, level: nat, pr: Pruning, i: nat)
    requires i < |d.subdirs| && !Descends(root, d.subdirs[i].name, pr)
    ensures Walk(root, d.(subdirs := d.subdirs[..i] + d.subdirs[i + 1..]), level, pr) == Walk(root, d, level, pr)
  {
    WalkAllWithout(root, d.subdirs, level + 1, pr, i);
  }

  lemma {:induction false} WalkAllWithout(parent: string, ds: seq<Dir>, level: nat, pr: Pruning, i: nat)
    requires i < |ds| && !Descends(parent, ds[i].name, pr)
    ensures WalkAll(parent, ds[..i] + ds[i + 1..], level, pr) == WalkAll(parent, ds, level, pr)
    decreases i
  {
    if i == 0 {
      assert ds[..0] + ds[1..] == ds[1..];
    } else {
      WalkAllWithout(parent, ds[1..], level, pr, i - 1);
      var rest := ds[1..][..i - 1] + ds[1..][i..];
      assert ds[..i] + ds[i + 1..] == [ds[0]] + rest;
      assert ([ds[0]] + rest)[1..] == rest;
    }
  }

  /**
   * The same at any depth: with pruning on, removing a descendant whose path
   * is ignored leaves the walk unchanged, so no step at or below it is ever
   * reached, unless the directory holding it is skipped as a `.git` root and
   * so never edits its `dirs`.
   */
  lemma {:induction false} PrunedDescendantInvisible(root: string, d: Dir, level: nat, pr: Pruning, p: seq<nat>)
    requires IsPath(d, p) && p != []
    requires pr.enabled && pr.ignored(PathName(root, d, p)) && !SkipsRoot(ParentName(root, d, p), pr.skipGit)
    ensures Walk(root, Without(d, p), level, pr) == Walk(root, d, level, pr)
    decreases |p|
  {
    var i, c := p[0], d.subdirs[p[0]];
    var child := PathJoin(root, c.name);
    if |p| == 1 {
      assert PathName(root, d, p) == child;
      PrunedChildInvisible(root, d, level, pr, i);
    } else {
      PrunedDescendantInvisible(child, c, level + 1, pr, p[1..]);
      WalkAllReplace(root, d.subdirs, level + 1, pr, i, Without(c, p[1..]));
    }
  }

  /** Replacing one subdirectory by another of the same name and the same walk leaves the walk unchanged. */
  lemma {:induction false} WalkAllReplace(parent: string, ds: seq<Dir>, level: nat, pr: Pruning, i: nat, c: Dir)
    requires i < |ds| && c.name == ds[i].name
    requires Walk(PathJoin(parent, c.name), c, level, pr) == Walk(PathJoin(parent, c.name), ds[i], level, pr)
    ensures WalkAll(parent, ds[i := c], level, pr) == WalkAll(parent, ds, level, pr)
    decreases i
  {
    if i > 0 {
      var ds' := ds[i := c];
      WalkAllReplace(parent, ds[1..], level, pr, i - 1, c);
      assert ds'[0] == ds[0] && ds'[1..] == ds[1..][i - 1 := c];
      WalkAllCons(parent, ds, level, pr);
      WalkAllCons(parent, ds', level, pr);
    }
  }

  /** Whether the walk from `root` descends at every step of the path `p`. */
  predicate Reaches(root: string, d: Dir, p: seq<nat>, pr: Pruning)
    requires IsPath(d, p)
    decreases |p|
  {
    p == [] || (Descends(root, d.subdirs[p[0]].name, pr)
                && Reaches(PathJoin(root, d.subdirs[p[0]].name), d.subdirs[p[0]], p[1..], pr))
  }

  /** A descendant the walk reaches is a step, `|p|` levels below the top's level. */
  lemma {:induction false} WalkVisitsDescendant(root: string, d: Dir, level: nat, pr: Pruning, p: seq<nat>)
    requires IsPath(d, p) && Reaches(root, d, p, pr)
    ensures Visit(PathName(root, d, p), level + |p|, At(d, p).files) in Walk(root, d, level, pr)
    decreases |p|
  {
    if p == [] {
      assert Walk(root, d, level, pr)[0] == Visit(root, level, d.files);
    } else {
      var c := d.subdirs[p[0]];
      var v := Visit(PathName(root, d, p), level + |p|, At(d, p).files);
      WalkVisitsDescendant(PathJoin(root, c.name), c, level + 1, pr, p[1..]);
      WalkAllContains(root, d.subdirs, level + 1, pr, p[0], v);
    }
  }

  /** Conversely, every step of the walk is a descendant the walk reaches, at its depth below the top. */
  lemma {:induction false} WalkStepIsDescendant(root: string, d: Dir, level: nat, pr: Pruning, v: Visit)
    requires v in Walk(root, d, level, pr)
    ensures exists p :: IsPath(d, p) && Reaches(root, d, p, pr)
                        && v == Visit(PathName(root, d, p), level + |p|, At(d, p).files)
    decreases d
  {
    if v == Visit(root, level, d.files) {
      assert IsPath(d, []) && Reaches(root, d, [], pr);
    } else {
      var i := WalkAllStep(root, d.subdirs, level + 1, pr, v);
      var c := d.subdirs[i];
      WalkStepIsDescendant(PathJoin(root, c.name), c, level + 1, pr, v);
      var q :| IsPath(c, q) && Reaches(PathJoin(root, c.name), c, q, pr)
               && v == Visit(PathName(PathJoin(root, c.name), c, q), level + 1 + |q|, At(c, q).files);
      var p := [i] + q;
      assert p[0] == i && p[1..] == q;
      assert IsPath(d, p) && Reaches(root, d, p, pr);
    }
  }

  /** The walk of a subdirectory the walk descends into is part of the walk of the run. */
  lemma {:induction false} WalkAllContains(parent: string, ds: seq<Dir>, level: nat, pr: Pruning, i: nat, v: Visit)
    requires i < |ds| && Descends(parent, ds[i].name, pr) && v in Walk(PathJoin(parent, ds[i].name), ds[i], level, pr)
    ensures v in WalkAll(parent, ds, level, pr)
    decreases i
  {
    WalkAllCons(parent, ds, level, pr);
    if i > 0 {
      WalkAllContains(parent, ds[1..], level, pr, i - 1, v);
    }
  }

  /** A step of the walk of a run comes from the walk of one subdirectory the walk descends into. */
  lemma {:induction false} WalkAllStep(parent: string, ds: seq<Dir>, level: nat, pr: Pruning, v: Visit) returns (i: nat)
    requires v in WalkAll(parent, ds, level, pr)
    ensures i < |ds| && Descends(parent, ds[i].name, pr) && v in Walk(PathJoin(parent, ds[i].name), ds[i], level, pr)
    decreases ds
  {
    WalkAllCons(parent, ds, level, pr);
    if v in WalkChild(parent, ds[0], level, pr) {
      i := 0;
    } else {
      var j := WalkAllStep(parent, ds[1..], level, pr, v);
      i := j + 1;
    }
  }

  /** The walk of subdirectory `d` of `parent`, or nothing when the walk does not descend into it. */
  function WalkChild(parent: string, d: Dir, level: nat, pr: Pruning): seq<Visit>
  {
    if Descends(parent, d.name, pr) then Walk(PathJoin(parent, d.name), d, level, pr) else []
  }

  lemma {:induction false} WalkAllCons(parent: string, ds: seq<Dir>, level: nat, pr: Pruning)
    requires ds != []
    ensures WalkAll(parent, ds, level, pr) == WalkChild(parent, ds[0], level, pr) + WalkAll(parent, ds[1..], level, pr)
  {
  }

  /** The walks of two runs of subdirectories, one after the other. */
  lemma {:induction false} WalkAllAppend(parent: string, a: seq<Dir>, b: seq<Dir>, level: nat, pr: Pruning)
    ensures WalkAll(parent, a + b, level, pr) == WalkAll(parent, a, level, pr) + WalkAll(parent, b, level, pr)
    decreases |a|
  {
    if a == [] {
      assert a + b == b;
    } else {
      var c := a + b;
      assert c[0] == a[0];
      assert c[1..] == a[1..] + b;
      WalkAllAppend(parent, a[1..], b, level, pr);
      WalkAllCons(parent, a, level, pr);
      WalkAllCons(parent, c, level, pr);
      SeqAssoc(WalkChild(parent, a[0], level, pr), WalkAll(parent, a[1..], level, pr), WalkAll(parent, b, level, pr));
    }
  }

  /** Every path the walk reaches below `root` keeps whatever `root` contains. */
  lemma {:induction false} WalkRootsContain(root: string, d: Dir, level: nat, pr: Pruning, t: string)
    requires Contains(root, t)
    ensures forall v :: v in Walk(root, d, level, pr) ==> Contains(v.root, t)
    decreases d
  {
    WalkAllRootsContain(root, d.subdirs, level + 1, pr, t);
  }

  lemma {:induction false} WalkAllRootsContain(parent: string, ds: seq<Dir>, level: nat, pr: Pruning, t: string)
    requires Contains(parent, t)
    ensures forall v :: v in WalkAll(parent, ds, level, pr) ==> Contains(v.root, t)
    decreases ds
  {
    if ds != [] {
      WalkAllRootsContain(parent, ds[1..], level, pr, t);
      if Descends(parent, ds[0].name, pr) {
        PathJoinContains(parent, ds[0].name, t);
        WalkRootsContain(PathJoin(parent, ds[0].name), ds[0], level, pr, t);
      }
    }
  }
}
