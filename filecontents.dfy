/**
 * `get_file_contents`: one fenced Markdown section per file the walk reaches
 * and the classifier selects, in walk order.
 */
module FileContents {
  import opened Wrappers
  import opened PyStr
  import opened FileTree
  import opened Lines
  import opened OsWalk

  /**
   * What one version's content pass depends on: the ignore predicate (the
   * constant `false` without an ignore file), whether roots containing `.git`
   * are skipped, the version's per-file classifier, the text of each file by
   * the path it is opened with (`None` when it does not decode as UTF-8), and
   * the `max_lines` limit (always `None` in the versions without one).
   */
  datatype ContentPass = ContentPass(ignored: string -> bool, skipGit: bool, selects: Name -> bool,
                                     read: string -> Option<string>, maxLines: Option<int>)

  /** One inlined file: the directory holding it, its name, and the text shown for it. */
  datatype Section = Section(root: string, name: Name, body: string)

  /** `os.path.join(root, file).replace("\\", "/")`, the path a file is opened with and shown under. */
  function FilePath(root: string, name: Name): string
  {
    ReplaceBackslashes(PathJoin(root, name))
  }

  /**
   * The text inlined for a file before blank lines are stripped:
   * `''.join(f.readlines()[:max_lines])`, or the whole text without a limit.
   */
  function Excerpt(text: string, maxLines: Option<int>): string
  {
    if maxLines.Some? then Concat(SliceTo(Readlines(text), maxLines.value)) else text
  }

  /** Without a limit the excerpt is the whole text; `''.join(f.readlines())` is the text itself. */
  lemma {:induction false} ExcerptWhole(text: string)
    ensures Excerpt(text, None) == text
    ensures Concat(Readlines(text)) == Excerpt(text, None)
  {
    ConcatReadlines(text);
  }

  /**
   * With a limit `n >= 0`, the excerpt is the first `n` lines of the text (all
   * of them when there are fewer), so reading it again yields those lines.
   */
  lemma {:induction false} ExcerptFirstLines(text: string, n: int)
    requires n >= 0
    ensures var ls := Readlines(text);
            Readlines(Excerpt(text, Some(n))) == ls[..if n <= |ls| then n else |ls|]
  {
    var ls := Readlines(text);
    var m := if n <= |ls| then n else |ls|;
    assert SliceTo(ls, n) == ls[..m];
    ReadlinesOfPrefix(text, m);
  }

  /** The excerpt is a prefix of the text: truncation only ever drops lines at the end. */
  lemma {:induction false} ExcerptIsPrefix(text: string, maxLines: Option<int>)
    ensures var e := Excerpt(text, maxLines); |e| <= |text| && e == text[..|e|]
  {
    if maxLines.Some? {
      var ls := Readlines(text);
      var p := SliceTo(ls, maxLines.value);
      var rest := ls[|p|..];
      ConcatReadlines(text);
      assert ls == p + rest;
      ConcatAppend(p, rest);
      var e, r := Concat(p), Concat(rest);
      assert text == e + r;
      assert (e + r)[..|e|] == e;
    }
  }

  /** `''.join(a + b) == ''.join(a) + ''.join(b)` */
  lemma {:induction false} ConcatAppend(a: seq<string>, b: seq<string>)
    ensures Concat(a + b) == Concat(a) + Concat(b)
    decreases |a|
  {
    if a == [] {
      assert a + b == b;
    } else {
      ConcatAppend(a[1..], b);
      assert (a + b)[1..] == a[1..] + b;
      assert (a + b)[0] == a[0];
      SeqAssoc(a[0], Concat(a[1..]), Concat(b));
    }
  }

  /** The section text: `f"## {file_path}\n\n```\n{body}\n```\n\n"`. */
  function SectionText(s: Section): string
  {
    "## " + FilePath(s.root, s.name) + "\n\n```\n" + s.body + "\n```\n\n"
  }

  /**
   * Whether file `name` of `root` gets a section: the classifier selects it,
   * it is not the output document, and it decodes.
   */
  predicate Inlined(root: string, name: Name, cp: ContentPass)
  {
    cp.selects(name) && name != OutputFile && cp.read(FilePath(root, name)).Some?
  }

  /** The section of an inlined file. */
  function SectionOf(root: string, name: Name, cp: ContentPass): Section
    requires Inlined(root, name, cp)
  {
    Section(root, name, RemoveEmptyLines(Excerpt(cp.read(FilePath(root, name)).value, cp.maxLines)))
  }

  /** The sections of the files of one step, in order. */
  function FileSections(root: string, files: seq<Name>, cp: ContentPass): seq<Section>
  {
    if files == [] then []
    else
      var f := files[|files| - 1];
      FileSections(root, files[..|files| - 1], cp) + (if Inlined(root, f, cp) then [SectionOf(root, f, cp)] else [])
  }

  /** The sections one step of the walk contributes: none at a skipped root, else those of its files not ignored. */
  function VisitSections(v: Visit, cp: ContentPass): seq<Section>
  {
    if SkipsRoot(v.root, cp.skipGit) then [] else FileSections(v.root, KeptFiles(v.root, v.files, cp.ignored), cp)
  }

  /** The sections of a sequence of steps, in order. */
  function SectionsOf(vs: seq<Visit>, cp: ContentPass): seq<Section>
  {
    if vs == [] then [] else SectionsOf(vs[..|vs| - 1], cp) + VisitSections(vs[|vs| - 1], cp)
  }

  /** The content pass never edits `dirs`: it descends into every subdirectory, ignored or not. */
  function ContentPruning(cp: ContentPass): Pruning
  {
    Pruning(cp.ignored, cp.skipGit, false)
  }

  /** Every section of the contents of `root`, found at path `directory`. */
  function Sections(directory: string, root: Dir, cp: ContentPass): seq<Section>
  {
    SectionsOf(Walk(directory, root, 0, ContentPruning(cp)), cp)
  }

  /** The sections' texts, one after the other. */
  function RenderSections(ss: seq<Section>): string
  {
    if ss == [] then "" else RenderSections(ss[..|ss| - 1]) + SectionText(ss[|ss| - 1])
  }

  lemma {:induction false} RenderSectionsSnoc(a: seq<Section>, s: Section)
    ensures RenderSections(a + [s]) == RenderSections(a) + SectionText(s)
  {
    assert (a + [s])[..|a|] == a;
  }

  /** Rendering distributes over concatenation. */
  lemma {:induction false} RenderSectionsAppend(a: seq<Section>, b: seq<Section>)
    ensures RenderSections(a + b) == RenderSections(a) + RenderSections(b)
    decreases |b|
  {
    if b == [] {
      assert a + b == a;
    } else {
      var b', x := b[..|b| - 1], b[|b| - 1];
      assert b == b' + [x];
      assert a + b == (a + b') + [x];
      RenderSectionsAppend(a, b');
      RenderSectionsSnoc(a + b', x);
      RenderSectionsSnoc(b', x);
      SeqAssoc(RenderSections(a), RenderSections(b'), SectionText(x));
    }
  }

  lemma {:induction false} FileSectionsSnoc(root: string, files: seq<Name>, i: nat, cp: ContentPass)
    requires i < |files|
    ensures FileSections(root, files[..i + 1], cp)
         == FileSections(root, files[..i], cp) + (if Inlined(root, files[i], cp) then [SectionOf(root, files[i], cp)] else [])
  {
    assert files[..i + 1][..i] == files[..i];
  }

  /** One more file of a step adds its section's text, if it is inlined. */
  lemma {:induction false} RenderFileSection(fileContents: string, root: string, files: seq<Name>, i: nat, cp: ContentPass)
    requires i < |files|
    ensures Inlined(root, files[i], cp) ==>
              (fileContents + RenderSections(FileSections(root, files[..i + 1], cp))
               == (fileContents + RenderSections(FileSections(root, files[..i], cp))) + SectionText(SectionOf(root, files[i], cp)))
    ensures !Inlined(root, files[i], cp) ==>
              (RenderSections(FileSections(root, files[..i + 1], cp)) == RenderSections(FileSections(root, files[..i], cp)))
  {
    var prefix := FileSections(root, files[..i], cp);
    FileSectionsSnoc(root, files, i, cp);
    if Inlined(root, files[i], cp) {
      var s := SectionOf(root, files[i], cp);
      RenderSectionsSnoc(prefix, s);
      SeqAssoc(fileContents, RenderSections(prefix), SectionText(s));
    } else {
      assert prefix + [] == prefix;
    }
  }

  /**
   * The inner loop over one step's files: a file the classifier rejects, the
   * output document and a file that does not decode are passed over; every
   * other file is read, cut to `max_lines` lines when there is a limit,
   * stripped of blank lines and appended as a section.
   */
  method FilesStep(fileContents: string, root: string, files: seq<Name>, cp: ContentPass) returns (out: string)
    ensures out == fileContents + RenderSections(FileSections(root, files, cp))
  {
    out := fileContents;
    var i := 0;
    assert files[..0] == [];
    while i < |files|
      invariant 0 <= i <= |files|
      invariant out == fileContents + RenderSections(FileSections(root, files[..i], cp))
    {
      var file := files[i];
      RenderFileSection(fileContents, root, files, i, cp);
      if cp.selects(file) && file != OutputFile {
        var filePath := ReplaceBackslashes(PathJoin(root, file));
        match cp.read(filePath) {
          case Some(text) =>
            var contents := ReadExcerpt(text, cp.maxLines);
            out := out + SectionText(Section(root, file, RemoveEmptyLines(contents)));
          case None =>
        }
      }
      i := i + 1;
    }
    assert files[..|files|] == files;
  }

  /** `contents = f.readlines()`, cut with `contents[:max_lines]` when there is a limit, then `''.join(contents)`. */
  method ReadExcerpt(text: string, maxLines: Option<int>) returns (contents: string)
    ensures contents == Excerpt(text, maxLines)
  {
    var lines := Readlines(text);
    if maxLines.Some? {
      lines := SliceTo(lines, maxLines.value);
    }
    contents := Concat(lines);
    ExcerptWhole(text);
  }

  /**
   * The body of the loop over the walk, for the step at `rootPath`: a root
   * containing `.git` is skipped; otherwise the files the ignore predicate
   * matches are dropped and the rest go through the inner loop. `dirs` is
   * returned untouched.
   */
  method ContentStep(fileContents: string, rootPath: string, level: nat, d: Dir, cp: ContentPass)
    returns (out: string, dirs: seq<Dir>)
    ensures out == fileContents + RenderSections(VisitSections(Visit(rootPath, level, d.files), cp))
    ensures dirs == DescendedDirs(rootPath, d.subdirs, ContentPruning(cp))
  {
    dirs := d.subdirs;
    if SkipsRoot(rootPath, cp.skipGit) {
      out := fileContents;
      assert out == fileContents + "";
      return;
    }
    var files := KeptFiles(rootPath, d.files, cp.ignored);
    out := FilesStep(fileContents, rootPath, files, cp);
  }

  /** The sections after one more step are the sections so far followed by that step's. */
  lemma {:induction false} RenderSectionsStep(vs: seq<Visit>, v: Visit, cp: ContentPass)
    ensures RenderSections(SectionsOf(vs + [v], cp)) == RenderSections(SectionsOf(vs, cp)) + RenderSections(VisitSections(v, cp))
  {
    assert (vs + [v])[..|vs|] == vs;
    RenderSectionsAppend(SectionsOf(vs, cp), VisitSections(v, cp));
  }

  /** `get_file_contents(directory, ...)`: the loop over the walk. */
  method GetFileContents(directory: string, root: Dir, cp: ContentPass) returns (fileContents: string)
    ensures fileContents == RenderSections(Sections(directory, root, cp))
  {
    fileContents := "";
    ghost var pr := ContentPruning(cp);
    ghost var walk := Walk(directory, root, 0, pr);
    ghost var visited: seq<Visit> := [];
    var stack := [Frame(directory, root, 0)];
    assert stack[..0] == [];
    while stack != []
      invariant visited + Pending(stack, pr) == walk
      invariant fileContents == RenderSections(SectionsOf(visited, cp))
      decreases |walk| - |visited|
    {
      var top := stack[|stack| - 1];
      var rest := stack[..|stack| - 1];
      ghost var v := Visit(top.path, top.level, top.dir.files);
      RenderSectionsStep(visited, v, cp);
      var dirs;
      fileContents, dirs := ContentStep(fileContents, top.path, top.level, top.dir, cp);
      var stack' := Resume(rest, top.path, dirs, top.level + 1, pr);
      StepKeepsWalk(visited, stack, top, rest, dirs, stack', pr, walk);
      visited := visited + [v];
      stack := stack';
    }
    assert visited == visited + Pending(stack, pr);
  }

  /** A file of a step has a section exactly when it is inlined; the section holds its stripped excerpt. */
  lemma {:induction false} FileSectionsMember(root: string, files: seq<Name>, cp: ContentPass, s: Section)
    ensures s in FileSections(root, files, cp)
        <==> s.root == root && s.name in files && Inlined(root, s.name, cp) && s == SectionOf(root, s.name, cp)
    decreases |files|
  {
    if files != [] {
      var fs := files[..|files| - 1];
      FileSectionsMember(root, fs, cp, s);
      assert files == fs + [files[|files| - 1]];
    }
  }

  /** The step that contributed a section, found by its index. */
  lemma {:induction false} SectionsOfListedBy(vs: seq<Visit>, s: Section, cp: ContentPass) returns (k: nat)
    requires s in SectionsOf(vs, cp)
    ensures k < |vs| && s in VisitSections(vs[k], cp)
    decreases |vs|
  {
    var n := |vs| - 1;
    var ws := vs[..n];
    var head, last := SectionsOf(ws, cp), VisitSections(vs[n], cp);
    assert SectionsOf(vs, cp) == head + last;
    if s in head {
      k := SectionsOfListedBy(ws, s, cp);
      assert vs[k] == ws[k];
    } else {
      k := n;
    }
  }

  lemma {:induction false} SectionsOfLists(vs: seq<Visit>, k: nat, s: Section, cp: ContentPass)
    requires k < |vs| && s in VisitSections(vs[k], cp)
    ensures s in SectionsOf(vs, cp)
    decreases |vs|
  {
    var ws, v := vs[..|vs| - 1], vs[|vs| - 1];
    var head, last := SectionsOf(ws, cp), VisitSections(v, cp);
    assert SectionsOf(vs, cp) == head + last;
    if k < |ws| {
      assert ws[k] == vs[k];
      SectionsOfLists(ws, k, s, cp);
      assert s in head;
    } else {
      assert k == |vs| - 1;
      assert vs[k] == v;
    }
  }

  /** What a section of one step says about that step. */
  lemma {:induction false} VisitSectionsSound(v: Visit, cp: ContentPass, s: Section)
    requires s in VisitSections(v, cp)
    ensures !SkipsRoot(v.root, cp.skipGit) && s.root == v.root && s.name in v.files
    ensures !cp.ignored(PathJoin(s.root, s.name)) && Inlined(s.root, s.name, cp) && s == SectionOf(s.root, s.name, cp)
  {
    FileSectionsMember(v.root, KeptFiles(v.root, v.files, cp.ignored), cp, s);
  }

  /**
   * Soundness of the content pass: every section is a file of a step of the
   * walk at a root that is not skipped; the file is not ignored, the
   * classifier selects it, it is not the output document and it decodes, and
   * the section shows its excerpt stripped of blank lines.
   */
  lemma {:induction false} SectionsSound(directory: string, root: Dir, cp: ContentPass, s: Section)
    requires s in Sections(directory, root, cp)
    ensures !SkipsRoot(s.root, cp.skipGit)
    ensures !cp.ignored(PathJoin(s.root, s.name)) && cp.selects(s.name) && s.name != OutputFile
    ensures cp.read(FilePath(s.root, s.name)).Some?
            && s.body == RemoveEmptyLines(Excerpt(cp.read(FilePath(s.root, s.name)).value, cp.maxLines))
    ensures exists v :: v in Walk(directory, root, 0, ContentPruning(cp)) && v.root == s.root && s.name in v.files
  {
    var walk := Walk(directory, root, 0, ContentPruning(cp));
    var k := SectionsOfListedBy(walk, s, cp);
    VisitSectionsSound(walk[k], cp, s);
    assert walk[k] in walk;
  }

  /**
   * Completeness of the content pass: every file of every step at a root not
   * skipped that is not ignored and is inlined gets its section.
   */
  lemma {:induction false} SectionsComplete(directory: string, root: Dir, cp: ContentPass, v: Visit, f: Name)
    requires v in Walk(directory, root, 0, ContentPruning(cp)) && !SkipsRoot(v.root, cp.skipGit)
    requires f in v.files && !cp.ignored(PathJoin(v.root, f)) && Inlined(v.root, f, cp)
    ensures SectionOf(v.root, f, cp) in Sections(directory, root, cp)
  {
    var walk := Walk(directory, root, 0, ContentPruning(cp));
    var k :| 0 <= k < |walk| && walk[k] == v;
    var s := SectionOf(v.root, f, cp);
    FileSectionsMember(v.root, KeptFiles(v.root, v.files, cp.ignored), cp, s);
    SectionsOfLists(walk, k, s, cp);
  }

  /**
   * The content pass descends into a subdirectory of the top even when the
   * ignore predicate matches the subdirectory itself: its files are inlined
   * unless they are matched one by one.
   */
  lemma {:induction false} IgnoredSubdirStillInlined(directory: string, root: Dir, cp: ContentPass, c: Dir, f: Name)
    requires c in root.subdirs
    requires !SkipsRoot(PathJoin(directory, c.name), cp.skipGit)
    requires f in c.files && !cp.ignored(PathJoin(PathJoin(directory, c.name), f))
    requires Inlined(PathJoin(directory, c.name), f, cp)
    ensures SectionOf(PathJoin(directory, c.name), f, cp) in Sections(directory, root, cp)
  {
    WalkVisitsChild(directory, root, 0, ContentPruning(cp), c);
    SectionsComplete(directory, root, cp, Visit(PathJoin(directory, c.name), 1, c.files), f);
  }

  /** The sections of two runs of files, one after the other. */
  lemma {:induction false} FileSectionsAppend(root: string, a: seq<Name>, b: seq<Name>, cp: ContentPass)
    ensures FileSections(root, a + b, cp) == FileSections(root, a, cp) + FileSections(root, b, cp)
    decreases |b|
  {
    if b == [] {
      assert a + b == a;
    } else {
      var b', f := b[..|b| - 1], b[|b| - 1];
      FileSectionsAppend(root, a, b', cp);
      assert (a + b)[..|a + b| - 1] == a + b';
      assert (a + b)[|a + b| - 1] == f;
      SeqAssoc(FileSections(root, a, cp), FileSections(root, b', cp),
               if Inlined(root, f, cp) then [SectionOf(root, f, cp)] else []);
    }
  }

  /** The output document adds no section, wherever it sits. */
  lemma {:induction false} FileSectionsAround(root: string, x: seq<Name>, o: seq<Name>, y: seq<Name>, cp: ContentPass)
    requires o == [] || o == [OutputFile]
    ensures FileSections(root, x + o + y, cp) == FileSections(root, x + y, cp)
  {
    FileSectionsAppend(root, x + o, y, cp);
    FileSectionsAppend(root, x, o, cp);
    FileSectionsAppend(root, x, y, cp);
    assert o == [] ==> x + o == x;
    assert o == [OutputFile] ==> o[..0] == [];
  }

  /** The same after filtering: the kept files with the output document among them have the same sections. */
  lemma {:induction false} KeptSectionsAround(root: string, a: seq<Name>, b: seq<Name>, cp: ContentPass)
    ensures FileSections(root, KeptFiles(root, a + [OutputFile] + b, cp.ignored), cp)
         == FileSections(root, KeptFiles(root, a + b, cp.ignored), cp)
  {
    var ka, ko, kb := KeptFiles(root, a, cp.ignored), KeptFiles(root, [OutputFile], cp.ignored), KeptFiles(root, b, cp.ignored);
    KeptFilesAround(root, a, OutputFile, b, cp.ignored);
    KeptFilesAppend(root, a, b, cp.ignored);
    FileSectionsAround(root, ka, ko, kb, cp);
  }

  /** A step with the output document among its files has the sections it has without it. */
  lemma {:induction false} VisitSectionsAround(root: string, level: nat, a: seq<Name>, b: seq<Name>, cp: ContentPass)
    ensures VisitSections(Visit(root, level, a + [OutputFile] + b), cp) == VisitSections(Visit(root, level, a + b), cp)
  {
    KeptSectionsAround(root, a, b, cp);
  }

  /** The sections of a first step, then those of the rest. */
  lemma {:induction false} SectionsOfCons(v: Visit, vs: seq<Visit>, cp: ContentPass)
    ensures SectionsOf([v] + vs, cp) == VisitSections(v, cp) + SectionsOf(vs, cp)
  {
    SectionsOfAppend([v], vs, cp);
    var s := VisitSections(v, cp);
    assert [v][..0] == [] && [v][0] == v;
    assert SectionsOf([v], cp) == [] + s;
    assert [] + s == s;
  }

  /**
   * The output document, wherever it sits among the top's files, gets no
   * section: summarizing a directory that already holds it inlines the same files.
   */
  lemma {:induction false} OutputFileNotInlined(directory: string, root: Dir, cp: ContentPass, a: seq<Name>, b: seq<Name>)
    requires root.files == a + b
    ensures Sections(directory, root.(files := a + [OutputFile] + b), cp) == Sections(directory, root, cp)
  {
    var rest := WalkAll(directory, root.subdirs, 1, ContentPruning(cp));
    SectionsOfCons(Visit(directory, 0, a + b), rest, cp);
    SectionsOfCons(Visit(directory, 0, a + [OutputFile] + b), rest, cp);
    VisitSectionsAround(directory, 0, a, b, cp);
  }

  lemma {:induction false} SectionsOfAppend(a: seq<Visit>, b: seq<Visit>, cp: ContentPass)
    ensures SectionsOf(a + b, cp) == SectionsOf(a, cp) + SectionsOf(b, cp)
    decreases |b|
  {
    if b == [] {
      assert a + b == a;
    } else {
      var b', x := b[..|b| - 1], b[|b| - 1];
      SectionsOfAppend(a, b', cp);
      assert (a + b)[..|a + b| - 1] == a + b';
      assert (a + b)[|a + b| - 1] == x;
      SeqAssoc(SectionsOf(a, cp), SectionsOf(b', cp), VisitSections(x, cp));
    }
  }

  /** Steps that are all skipped contribute no section. */
  lemma {:induction false} SectionsOfSkipped(vs: seq<Visit>, cp: ContentPass)
    requires forall v :: v in vs ==> SkipsRoot(v.root, cp.skipGit)
    ensures SectionsOf(vs, cp) == []
    decreases |vs|
  {
    if vs != [] {
      var ws := vs[..|vs| - 1];
      assert forall v :: v in ws ==> v in vs;
      assert vs[|vs| - 1] in vs;
      SectionsOfSkipped(ws, cp);
    }
  }

  /**
   * With `.git` roots skipped, a `.git` subdirectory of the top contributes no
   * section, whatever the ignore predicate says about it.
   */
  lemma {:induction false} GitSubdirNotInlined(directory: string, root: Dir, cp: ContentPass, i: nat)
    requires cp.skipGit && i < |root.subdirs| && root.subdirs[i].name == ".git"
    ensures Sections(directory, root.(subdirs := root.subdirs[..i] + root.subdirs[i + 1..]), cp)
         == Sections(directory, root, cp)
  {
    var pr := ContentPruning(cp);
    var ds := root.subdirs;
    var g := ds[i];
    var a, b := ds[..i], ds[i + 1..];
    assert ds == a + ([g] + b);
    WalkAllAppend(directory, a, [g] + b, 1, pr);
    WalkAllCons(directory, [g] + b, 1, pr);
    assert ([g] + b)[1..] == b;
    WalkAllAppend(directory, a, b, 1, pr);
    var wg := WalkChild(directory, g, 1, pr);
    var gp := PathJoin(directory, g.name);
    BasenameOfJoin(directory, g.name);
    EndsWithContains(gp, ".git");
    WalkRootsContain(gp, g, 1, pr, ".git");
    SectionsOfSkipped(wg, cp);
    var top := [Visit(directory, 0, root.files)];
    var wa, wb := WalkAll(directory, a, 1, pr), WalkAll(directory, b, 1, pr);
    SectionsSplice(top, wa, wg, wb, cp);
  }

  lemma {:induction false} SectionsSplice(top: seq<Visit>, wa: seq<Visit>, wg: seq<Visit>, wb: seq<Visit>, cp: ContentPass)
    requires SectionsOf(wg, cp) == []
    ensures SectionsOf(top + (wa + wb), cp) == SectionsOf(top + (wa + (wg + wb)), cp)
  {
    var st, sa, sb := SectionsOf(top, cp), SectionsOf(wa, cp), SectionsOf(wb, cp);
    SectionsOfAppend(wg, wb, cp);
    assert SectionsOf(wg + wb, cp) == sb;
    SectionsOfAppend(wa, wb, cp);
    SectionsOfAppend(wa, wg + wb, cp);
    assert SectionsOf(wa + (wg + wb), cp) == SectionsOf(wa + wb, cp);
    SectionsOfAppend(top, wa + wb, cp);
    SectionsOfAppend(top, wa + (wg + wb), cp);
  }
}
