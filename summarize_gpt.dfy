/**
 * `summarizeGPT/summarizeGPT.py`: the current version, with extension lists,
 * `.git` roots skipped, and an optional limit on the lines inlined per file.
 */
module SummarizeGPT {
  import opened Wrappers
  import opened PyStr
  import opened FileTree
  import opened Lines
  import opened OsWalk
  import opened TreeView
  import opened FileContents
  import opened Classify
  import opened Prompt

  /** The keyword arguments of `summarize_directory` that shape the content pass. */
  datatype Options = Options(includeExts: Option<seq<string>>, excludeExts: Option<seq<string>>,
                             showDocker: bool, showOnlyDocker: bool, maxLines: Option<int>)

  /** This version's content pass for the given ignore predicate and file texts. */
  function Pass(ignored: string -> bool, opts: Options, read: string -> Option<string>): ContentPass
  {
    ContentPass(ignored, true,
                (name: Name) => Selected(name, opts.includeExts, opts.excludeExts, GptDenySuffixes, opts.showDocker, opts.showOnlyDocker),
                read, opts.maxLines)
  }

  /** The document `summarize_directory` returns for the tree `root` found at path `directory`. */
  function Summary(directory: string, root: Dir, ignored: string -> bool, opts: Options, read: string -> Option<string>): string
  {
    Document(directory, root, Pass(ignored, opts, read))
  }

  /** The parsed command line; `--encoding` only concerns the statistics, which are not part of this model. */
  datatype Args = Args(directory: string, gitignore: Option<string>, includeOption: Option<string>, excludeOption: Option<string>,
                       showDocker: bool, showOnlyDocker: bool, maxLines: Option<int>)

  /** The options `main` passes on. */
  function OptionsOf(args: Args): Options
  {
    Options(ExtList(args.includeOption), ExtList(args.excludeOption), args.showDocker, args.showOnlyDocker, args.maxLines)
  }

  /**
   * `main` after parsing: both docker flags stop it with the error message
   * before anything is summarized or written; otherwise it yields the path of
   * the output document, joined to the directory as given, and the document.
   */
  method Run(args: Args, root: Dir, parse: string -> (string -> bool), read: string -> Option<string>)
    returns (r: Result<(string, string), string>)
    ensures r.Failure? <==> args.showDocker && args.showOnlyDocker
    ensures r.Failure? ==> r.error == ConflictMessage
    ensures r.Success? ==> r.value == (PathJoin(args.directory, OutputFile),
                                       Summary(args.directory, root, IgnorePredicate(args.gitignore, parse), OptionsOf(args), read))
  {
    if args.showDocker && args.showOnlyDocker {
      return Failure(ConflictMessage);
    }
    var includeExts := ExtList(args.includeOption);
    var excludeExts := ExtList(args.excludeOption);
    var ignored := IgnorePredicate(args.gitignore, parse);
    var opts := Options(includeExts, excludeExts, args.showDocker, args.showOnlyDocker, args.maxLines);
    var promptMd := SummarizeDirectory(args.directory, root, Pass(ignored, opts, read));
    var promptFile := PathJoin(args.directory, OutputFile);
    r := Success((promptFile, promptMd));
  }

  /**
   * In the default mode, no inlined file is the output document, fails an
   * extension list, has a lower-cased name ending with a denied suffix, or
   * contains `docker`.
   */
  lemma {:induction false} DefaultModeSections(directory: string, root: Dir, ignored: string -> bool,
                                               includeExts: Option<seq<string>>, excludeExts: Option<seq<string>>,
                                               maxLines: Option<int>, read: string -> Option<string>, s: Section)
    requires s in Sections(directory, root, Pass(ignored, Options(includeExts, excludeExts, false, false, maxLines), read))
    ensures s.name != OutputFile && ExtPasses(s.name, includeExts, excludeExts)
    ensures !EndsWithAny(Lower(s.name), GptDenySuffixes) && !Contains(Lower(s.name), "docker")
  {
    SectionsSound(directory, root, Pass(ignored, Options(includeExts, excludeExts, false, false, maxLines), read), s);
    DefaultModeIff(s.name, GptDenySuffixes);
  }

  /** With `show_only_docker`, every inlined file's lower-cased name contains `docker` or `requirements.txt`. */
  lemma {:induction false} OnlyDockerSections(directory: string, root: Dir, ignored: string -> bool, opts: Options,
                                              read: string -> Option<string>, s: Section)
    requires opts.showOnlyDocker && s in Sections(directory, root, Pass(ignored, opts, read))
    ensures Contains(Lower(s.name), "docker") || Contains(Lower(s.name), "requirements.txt")
  {
    SectionsSound(directory, root, Pass(ignored, opts, read), s);
    OnlyDockerIff(s.name, GptDenySuffixes, DockerDenySubstrings, opts.showDocker);
  }

  /**
   * With `max_lines` at `n >= 0`, every section shows, stripped of blank
   * lines, a prefix of its file made of at most `n` of its lines.
   */
  lemma {:induction false} TruncatedSections(directory: string, root: Dir, ignored: string -> bool, opts: Options,
                                             read: string -> Option<string>, s: Section, n: int)
    requires opts.maxLines == Some(n) && n >= 0 && s in Sections(directory, root, Pass(ignored, opts, read))
    ensures read(FilePath(s.root, s.name)).Some?
    ensures var text := read(FilePath(s.root, s.name)).value;
            var e := Excerpt(text, Some(n));
            s.body == RemoveEmptyLines(e) && |e| <= |text| && e == text[..|e|] && |Readlines(e)| <= n
  {
    SectionsSound(directory, root, Pass(ignored, opts, read), s);
    var text := read(FilePath(s.root, s.name)).value;
    ExcerptFirstLines(text, n);
    ExcerptIsPrefix(text, Some(n));
  }

  /** Without `max_lines`, every section shows its whole file stripped of blank lines. */
  lemma {:induction false} WholeFileSections(directory: string, root: Dir, ignored: string -> bool, opts: Options,
                                             read: string -> Option<string>, s: Section)
    requires opts.maxLines.None? && s in Sections(directory, root, Pass(ignored, opts, read))
    ensures read(FilePath(s.root, s.name)).Some?
    ensures s.body == RemoveEmptyLines(read(FilePath(s.root, s.name)).value)
  {
    SectionsSound(directory, root, Pass(ignored, opts, read), s);
    ExcerptWhole(read(FilePath(s.root, s.name)).value);
  }
}
