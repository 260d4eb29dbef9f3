/**
 * `summarizeGPT/summarize_directory.py`: the packaged version before the line
 * limit, with extension lists and `.git` roots skipped; every inlined file is
 * read whole.
 */
module SummarizeDirectoryPkg {
  import opened Wrappers
  import opened PyStr
  import opened FileTree
  import opened Lines
  import opened OsWalk
  import opened TreeView
  import opened FileContents
  import opened Classify
  import opened Prompt

  /** The keyword arguments of `summarize_directory` that shape the content pass. */
  datatype Options = Options(includeExts: Option<seq<string>>, excludeExts: Option<seq<string>>,
                             showDocker: bool, showOnlyDocker: bool)

  /** This version's content pass: its own denied suffixes, no line limit. */
  function Pass(ignored: string -> bool, opts: Options, read: string -> Option<string>): ContentPass
  {
    ContentPass(ignored, true,
                (name: Name) => Selected(name, opts.includeExts, opts.excludeExts, PkgDenySuffixes, opts.showDocker, opts.showOnlyDocker),
                read, None)
  }

  /** The document `summarize_directory` returns for the tree `root` found at path `directory`. */
  function Summary(directory: string, root: Dir, ignored: string -> bool, opts: Options, read: string -> Option<string>): string
  {
    Document(directory, root, Pass(ignored, opts, read))
  }

  /** The parsed command line. */
  datatype Args = Args(directory: string, gitignore: Option<string>, includeOption: Option<string>, excludeOption: Option<string>,
                       showDocker: bool, showOnlyDocker: bool)

  /** The options `main` passes on. */
  function OptionsOf(args: Args): Options
  {
    Options(ExtList(args.includeOption), ExtList(args.excludeOption), args.showDocker, args.showOnlyDocker)
  }

  /** `main` after parsing: both docker flags stop it; otherwise it yields the output path and the document. */
  method Run(args: Args, root: Dir, parse: string -> (string -> bool), read: string -> Option<string>)
    returns (r: Result<(string, string), string>)
    ensures r.Failure? <==> args.showDocker && args.showOnlyDocker
    ensures r.Failure? ==> r.error == ConflictMessage
    ensures r.Success? ==> r.value == (PathJoin(args.directory, OutputFile),
                                       Summary(args.directory, root, IgnorePredicate(args.gitignore, parse), OptionsOf(args), read))
  {
    if args.showDocker && args.showOnlyDocker {
      return Failure(ConflictMessage);
    }
    var includeExts := ExtList(args.includeOption);
    var excludeExts := ExtList(args.excludeOption);
    var ignored := IgnorePredicate(args.gitignore, parse);
    var opts := Options(includeExts, excludeExts, args.showDocker, args.showOnlyDocker);
    var promptMd := SummarizeDirectory(args.directory, root, Pass(ignored, opts, read));
    var promptFile := PathJoin(args.directory, OutputFile);
    r := Success((promptFile, promptMd));
  }

  /**
   * In the default mode, no inlined file is the output document, fails an
   * extension list, has a lower-cased name ending with one of this version's
   * denied suffixes, or contains `docker`.
   */
  lemma {:induction false} DefaultModeSections(directory: string, root: Dir, ignored: string -> bool,
                                               includeExts: Option<seq<string>>, excludeExts: Option<seq<string>>,
                                               read: string -> Option<string>, s: Section)
    requires s in Sections(directory, root, Pass(ignored, Options(includeExts, excludeExts, false, false), read))
    ensures s.name != OutputFile && ExtPasses(s.name, includeExts, excludeExts)
    ensures !EndsWithAny(Lower(s.name), PkgDenySuffixes) && !Contains(Lower(s.name), "docker")
  {
    SectionsSound(directory, root, Pass(ignored, Options(includeExts, excludeExts, false, false), read), s);
    DefaultModeIff(s.name, PkgDenySuffixes);
  }

  /** With `show_only_docker`, every inlined file's lower-cased name contains `docker` or `requirements.txt`. */
  lemma {:induction false} OnlyDockerSections(directory: string, root: Dir, ignored: string -> bool, opts: Options,
                                              read: string -> Option<string>, s: Section)
    requires opts.showOnlyDocker && s in Sections(directory, root, Pass(ignored, opts, read))
    ensures Contains(Lower(s.name), "docker") || Contains(Lower(s.name), "requirements.txt")
  {
    SectionsSound(directory, root, Pass(ignored, opts, read), s);
    OnlyDockerIff(s.name, PkgDenySuffixes, DockerDenySubstrings, opts.showDocker);
  }

  /** Every section shows its whole file, stripped of blank lines: this version does not truncate. */
  lemma {:induction false} WholeFileSections(directory: string, root: Dir, ignored: string -> bool, opts: Options,
                                             read: string -> Option<string>, s: Section)
    requires s in Sections(directory, root, Pass(ignored, opts, read))
    ensures read(FilePath(s.root, s.name)).Some?
    ensures s.body == RemoveEmptyLines(read(FilePath(s.root, s.name)).value)
  {
    SectionsSound(directory, root, Pass(ignored, opts, read), s);
    ExcerptWhole(read(FilePath(s.root, s.name)).value);
  }
}
