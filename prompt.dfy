/**
 * The parts every version of `summarize_directory` and `main` shares: the
 * document layout and how it is built, the ignore predicate an optional
 * ignore file gives, and the conflicting-flags check. The versions differ
 * only in their content pass.
 */
module Prompt {
  import opened Wrappers
  import opened PyStr
  import opened FileTree
  import opened TreeView
  import opened FileContents

  /** `f"# Summary of directory: {directory}\n\n"` */
  function Header(directory: string): string
  {
    "# Summary of directory: " + directory + "\n\n"
  }

  /** The fence opening the tree view. */
  const TreeOpen: string := "```\n"

  /** The fence closing it, and the blank line after it. */
  const TreeClose: string := "\n```\n\n"

  /** The document: the header, then the fenced tree view, then the sections. */
  function PromptMd(directory: string, treeView: string, fileContents: string): string
  {
    Header(directory) + TreeOpen + treeView + TreeClose + fileContents
  }

  /** Where the sections start in a document with this directory and tree view. */
  function ContentsStart(directory: string, treeView: string): nat
  {
    |Header(directory)| + |TreeOpen| + |treeView| + |TreeClose|
  }

  /**
   * The document can be taken apart again: it starts with the header and the
   * opening fence, the tree view follows, and after the closing fence come
   * exactly the sections.
   */
  lemma {:induction false} PromptMdParts(directory: string, treeView: string, fileContents: string)
    ensures var doc := PromptMd(directory, treeView, fileContents);
            var h := |Header(directory)| + |TreeOpen|;
            var n := ContentsStart(directory, treeView);
            |doc| == n + |fileContents|
            && StartsWith(doc, Header(directory) + TreeOpen)
            && doc[h..h + |treeView|] == treeView
            && doc[n - |TreeClose|..n] == TreeClose
            && doc[n..] == fileContents
  {
    var h := Header(directory) + TreeOpen;
    var doc := PromptMd(directory, treeView, fileContents);
    var n := ContentsStart(directory, treeView);
    assert doc == h + treeView + TreeClose + fileContents;
    assert doc[..|h|] == h;
    assert doc[|h|..|h| + |treeView|] == treeView;
    assert doc[n - |TreeClose|..n] == TreeClose;
    assert doc[n..] == fileContents;
  }

  /**
   * The document for the tree `root` found at path `directory`: the directory
   * with backslashes replaced, the tree view under the content pass's ignore
   * predicate and `.git` skip (every version lists and inlines with the same
   * ones), then the sections.
   */
  function Document(directory: string, root: Dir, cp: ContentPass): string
  {
    var d := ReplaceBackslashes(directory);
    PromptMd(d, Render(TreeEntries(d, root, cp.ignored, cp.skipGit)), RenderSections(Sections(d, root, cp)))
  }

  /**
   * `summarize_directory(directory, gitignore_file, ...)`: the header, the fenced
   * tree view, then the file contents, for the version whose pass `cp` is.
   */
  method SummarizeDirectory(directory: string, root: Dir, cp: ContentPass) returns (promptMd: string)
    ensures promptMd == Document(directory, root, cp)
  {
    var d := ReplaceBackslashes(directory);
    promptMd := Header(d);
    var treeView := GetTreeView(d, root, cp.ignored, cp.skipGit);
    promptMd := promptMd + TreeOpen + treeView + TreeClose;
    var fileContents := GetFileContents(d, root, cp);
    promptMd := promptMd + fileContents;
  }

  /** Summarizing a directory given with backslashes is summarizing it with `/`. */
  lemma {:induction false} DocumentNormalisesDirectory(directory: string, root: Dir, cp: ContentPass)
    ensures Document(ReplaceBackslashes(directory), root, cp) == Document(directory, root, cp)
  {
    ReplaceBackslashesNormal(directory);
  }

  /**
   * Summarizing again, once the output document sits among the top's files
   * (wherever the OS lists it), gives the same document: it is neither
   * listed nor inlined.
   */
  lemma {:induction false} RerunSameDocument(directory: string, root: Dir, cp: ContentPass, a: seq<Name>, b: seq<Name>)
    requires root.files == a + b
    ensures Document(directory, root.(files := a + [OutputFile] + b), cp) == Document(directory, root, cp)
  {
    var d := ReplaceBackslashes(directory);
    OutputFileNotListed(d, root, cp.ignored, cp.skipGit, a, b);
    OutputFileNotInlined(d, root, cp, a, b);
  }

  /**
   * `gitignore_parser.parse_gitignore(gitignore_file) if gitignore_file else None`:
   * without a (non-empty) ignore file nothing is ignored, which is what
   * skipping the `if gitignore:` filters amounts to. `parse` stands for the
   * parser, whose matching rules are not part of this model.
   */
  function IgnorePredicate(gitignoreFile: Option<string>, parse: string -> (string -> bool)): string -> bool
  {
    if gitignoreFile.None? || gitignoreFile.value == "" then (_ => false) else parse(gitignoreFile.value)
  }

  /** Without an ignore file, no path is ignored. */
  lemma {:induction false} NoIgnoreFileIgnoresNothing(parse: string -> (string -> bool), p: string)
    ensures !IgnorePredicate(None, parse)(p) && !IgnorePredicate(Some(""), parse)(p)
  {
  }

  /** The message printed when both docker flags are set. */
  const ConflictMessage: string := "Error: Cannot use both show_docker and show_only_docker options."
}
