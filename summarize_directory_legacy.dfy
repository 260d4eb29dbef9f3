/**
 * `summarize_directory.py`: the oldest version, with no extension lists, no
 * line limit, and no `.git` skip in either pass.
 */
module SummarizeDirectoryLegacy {
  import opened Wrappers
  import opened PyStr
  import opened FileTree
  import opened Lines
  import opened OsWalk
  import opened TreeView
  import opened FileContents
  import opened Classify
  import opened Prompt

  /** This version's content pass: no `.git` skip, its own denylist, no line limit. */
  function Pass(ignored: string -> bool, showDocker: bool, showOnlyDocker: bool, read: string -> Option<string>): ContentPass
  {
    ContentPass(ignored, false, (name: Name) => LegacySelected(name, showDocker, showOnlyDocker), read, None)
  }

  /** The document `summarize_directory` returns for the tree `root` found at path `directory`. */
  function Summary(directory: string, root: Dir, ignored: string -> bool, showDocker: bool, showOnlyDocker: bool,
                   read: string -> Option<string>): string
  {
    Document(directory, root, Pass(ignored, showDocker, showOnlyDocker, read))
  }

  /** The parsed command line. */
  datatype Args = Args(directory: string, gitignore: Option<string>, showDocker: bool, showOnlyDocker: bool)

  /** `main` after parsing: both docker flags stop it; otherwise it yields the output path and the document. */
  method Run(args: Args, root: Dir, parse: string -> (string -> bool), read: string -> Option<string>)
    returns (r: Result<(string, string), string>)
    ensures r.Failure? <==> args.showDocker && args.showOnlyDocker
    ensures r.Failure? ==> r.error == ConflictMessage
    ensures r.Success? ==> r.value == (PathJoin(args.directory, OutputFile),
                                       Summary(args.directory, root, IgnorePredicate(args.gitignore, parse),
                                               args.showDocker, args.showOnlyDocker, read))
  {
    if args.showDocker && args.showOnlyDocker {
      return Failure(ConflictMessage);
    }
    var ignored := IgnorePredicate(args.gitignore, parse);
    var promptMd := SummarizeDirectory(args.directory, root, Pass(ignored, args.showDocker, args.showOnlyDocker, read));
    var promptFile := PathJoin(args.directory, OutputFile);
    r := Success((promptFile, promptMd));
  }

  /**
   * In the default mode, no inlined file is the output document or has a
   * lower-cased name containing `docker`, `requirements.txt`, `.env` or `prompt.md`.
   */
  lemma {:induction false} DefaultModeSections(directory: string, root: Dir, ignored: string -> bool,
                                               read: string -> Option<string>, s: Section)
    requires s in Sections(directory, root, Pass(ignored, false, false, read))
    ensures s.name != OutputFile
    ensures !Contains(Lower(s.name), "docker") && !Contains(Lower(s.name), "requirements.txt")
            && !Contains(Lower(s.name), ".env") && !Contains(Lower(s.name), "prompt.md")
  {
    SectionsSound(directory, root, Pass(ignored, false, false, read), s);
    LegacyDefaultModeIff(s.name);
  }

  /** With `show_only_docker`, every inlined file's lower-cased name contains `docker` or `requirements.txt`. */
  lemma {:induction false} OnlyDockerSections(directory: string, root: Dir, ignored: string -> bool, showDocker: bool,
                                              read: string -> Option<string>, s: Section)
    requires s in Sections(directory, root, Pass(ignored, showDocker, true, read))
    ensures Contains(Lower(s.name), "docker") || Contains(Lower(s.name), "requirements.txt")
  {
    SectionsSound(directory, root, Pass(ignored, showDocker, true, read), s);
    OnlyDockerIff(s.name, LegacyDenySuffixes, LegacyDenySubstrings, showDocker);
  }

  /**
   * Without a `.git` skip, every step of the walk is listed, `.git`
   * directories included, with every file that is neither ignored nor the
   * output document.
   */
  lemma {:induction false} ListsEveryStep(directory: string, root: Dir, ignored: string -> bool, v: Visit, f: Name)
    requires v in Walk(directory, root, 0, TreePruning(ignored, false))
    ensures Entry(v.level, v.root, Basename(v.root), true) in TreeEntries(directory, root, ignored, false)
    ensures f in v.files && f != OutputFile && !ignored(PathJoin(v.root, f))
            ==> Entry(v.level + 1, v.root, f, false) in TreeEntries(directory, root, ignored, false)
  {
    TreeEntriesComplete(directory, root, ignored, false, v, f);
  }

  /**
   * Without a `.git` skip, every file of every step that is not ignored and
   * is inlined gets its section, inside `.git` directories too.
   */
  lemma {:induction false} InlinesEveryStep(directory: string, root: Dir, ignored: string -> bool, showDocker: bool,
                                            showOnlyDocker: bool, read: string -> Option<string>, v: Visit, f: Name)
    requires v in Walk(directory, root, 0, ContentPruning(Pass(ignored, showDocker, showOnlyDocker, read)))
    requires f in v.files && !ignored(PathJoin(v.root, f)) && Inlined(v.root, f, Pass(ignored, showDocker, showOnlyDocker, read))
    ensures SectionOf(v.root, f, Pass(ignored, showDocker, showOnlyDocker, read))
            in Sections(directory, root, Pass(ignored, showDocker, showOnlyDocker, read))
  {
    SectionsComplete(directory, root, Pass(ignored, showDocker, showOnlyDocker, read), v, f);
  }

  /** Every section shows its whole file, stripped of blank lines. */
  lemma {:induction false} WholeFileSections(directory: string, root: Dir, ignored: string -> bool, showDocker: bool,
                                             showOnlyDocker: bool, read: string -> Option<string>, s: Section)
    requires s in Sections(directory, root, Pass(ignored, showDocker, showOnlyDocker, read))
    ensures read(FilePath(s.root, s.name)).Some?
    ensures s.body == RemoveEmptyLines(read(FilePath(s.root, s.name)).value)
  {
    SectionsSound(directory, root, Pass(ignored, showDocker, showOnlyDocker, read), s);
    ExcerptWhole(read(FilePath(s.root, s.name)).value);
  }
}
