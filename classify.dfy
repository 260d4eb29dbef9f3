/**
 * The per-file classifiers of the content pass, and the extension lists
 * built from `--include` and `--exclude`.
 */
module Classify {
  import opened Wrappers
  import opened PyStr
  import opened FileTree

  /** The suffixes skipped by default in `summarizeGPT/summarizeGPT.py`. */
  const GptDenySuffixes: seq<string> := [".env", "license", "gitignore", "setup.py", "__init__.py", "test_summarize_gpt.py"]

  /** The suffixes skipped by default in `summarizeGPT/summarize_directory.py`. */
  const PkgDenySuffixes: seq<string> := [".env", "license", "gitignore", "setup.py", "__init__.py", "test_summarize_directory.py"]

  /** `excluded_files` of the two packaged versions. */
  const DockerDenySubstrings: seq<string> := ["docker", "Dockerfile"]

  /** The oldest version's single suffix, `.env`. */
  const LegacyDenySuffixes: seq<string> := [".env"]

  /** `excluded_files` of the oldest version. */
  const LegacyDenySubstrings: seq<string> := ["docker", "Dockerfile", "requirements.txt", ".env", "prompt.md"]

  /** What `show_only_docker` keeps, in every version. */
  const DockerSubstrings: seq<string> := ["docker", "Dockerfile", "requirements.txt"]

  /**
   * The extension filter: with an include list the lower-cased extension
   * must be in it, with an exclude list it must not be. A list is checked for
   * being present, not for being empty.
   */
  predicate ExtPasses(name: Name, includeExts: Option<seq<string>>, excludeExts: Option<seq<string>>)
  {
    var ext := LowerExt(name);
    !(includeExts.Some? && ext !in includeExts.value) && !(excludeExts.Some? && ext in excludeExts.value)
  }

  /**
   * The display-mode filter on the lower-cased name: by default a name with
   * a denied suffix or substring is skipped; with `show_only_docker` only a
   * docker-related name is kept; with `show_docker` alone nothing is skipped.
   */
  predicate NamePasses(name: Name, denySuffixes: seq<string>, denySubstrings: seq<string>,
                       showDocker: bool, showOnlyDocker: bool)
  {
    var l := Lower(name);
    if !showDocker && !showOnlyDocker then !(EndsWithAny(l, denySuffixes) || ContainsAny(l, denySubstrings))
    else if showOnlyDocker then ContainsAny(l, DockerSubstrings)
    else true
  }

  /** The classifier of the two packaged versions: the extension filter, then the mode filter. */
  predicate Selected(name: Name, includeExts: Option<seq<string>>, excludeExts: Option<seq<string>>,
                     denySuffixes: seq<string>, showDocker: bool, showOnlyDocker: bool)
  {
    ExtPasses(name, includeExts, excludeExts) && NamePasses(name, denySuffixes, DockerDenySubstrings, showDocker, showOnlyDocker)
  }

  /** The classifier of the oldest version: no extension filter. */
  predicate LegacySelected(name: Name, showDocker: bool, showOnlyDocker: bool)
  {
    NamePasses(name, LegacyDenySuffixes, LegacyDenySubstrings, showDocker, showOnlyDocker)
  }

  /**
   * The two packaged classifiers agree on every name whose lower-cased form
   * ends with neither of the two test-file names that tell their denylists apart.
   */
  lemma {:induction false} PackagedClassifiersAgree(name: Name, includeExts: Option<seq<string>>, excludeExts: Option<seq<string>>,
                                                    showDocker: bool, showOnlyDocker: bool)
    requires !EndsWith(Lower(name), "test_summarize_gpt.py") && !EndsWith(Lower(name), "test_summarize_directory.py")
    ensures Selected(name, includeExts, excludeExts, GptDenySuffixes, showDocker, showOnlyDocker)
        == Selected(name, includeExts, excludeExts, PkgDenySuffixes, showDocker, showOnlyDocker)
  {
    var l := Lower(name);
    var common := [".env", "license", "gitignore", "setup.py", "__init__.py"];
    SameSuffixes(l, common, "test_summarize_directory.py");
    SameSuffixes(l, common, "test_summarize_gpt.py");
    assert PkgDenySuffixes == common + ["test_summarize_directory.py"];
    assert GptDenySuffixes == common + ["test_summarize_gpt.py"];
  }

  /** A suffix the name does not end with changes nothing in `endswith((...))`. */
  lemma {:induction false} SameSuffixes(l: string, common: seq<string>, extra: string)
    requires !EndsWith(l, extra)
    ensures EndsWithAny(l, common + [extra]) == EndsWithAny(l, common)
  {
    var all := common + [extra];
    if EndsWithAny(l, all) {
      var k :| 0 <= k < |all| && EndsWith(l, all[k]);
      assert k < |common| && all[k] == common[k];
    }
    if EndsWithAny(l, common) {
      var k :| 0 <= k < |common| && EndsWith(l, common[k]);
      assert all[k] == common[k];
    }
  }

  /** A name compared in lower case never contains `Dockerfile`, so that list entry matches nothing. */
  lemma {:induction false} DockerfileNeverMatches(name: string)
    ensures !Contains(Lower(name), "Dockerfile")
  {
    if Contains(Lower(name), "Dockerfile") {
      ContainsFirstChar(Lower(name), "Dockerfile");
      LowerHasNoUpper(name, 'D');
    }
  }

  /**
   * A selected file passes both extension lists: its lower-cased extension is
   * in the include list when there is one and not in the exclude list when
   * there is one; so an extension in both lists is never selected.
   */
  lemma {:induction false} SelectedPassesExtLists(name: Name, includeExts: Option<seq<string>>, excludeExts: Option<seq<string>>,
                                                  denySuffixes: seq<string>, showDocker: bool, showOnlyDocker: bool)
    requires Selected(name, includeExts, excludeExts, denySuffixes, showDocker, showOnlyDocker)
    ensures includeExts.Some? ==> LowerExt(name) in includeExts.value
    ensures excludeExts.Some? ==> LowerExt(name) !in excludeExts.value
    ensures !(includeExts.Some? && excludeExts.Some? && LowerExt(name) in includeExts.value
              && LowerExt(name) in excludeExts.value)
  {
  }

  /**
   * In the default mode a packaged version keeps a name exactly when its
   * lower-cased form ends with none of the denied suffixes and does not
   * contain `docker`.
   */
  lemma {:induction false} DefaultModeIff(name: Name, denySuffixes: seq<string>)
    ensures NamePasses(name, denySuffixes, DockerDenySubstrings, false, false)
        <==> !EndsWithAny(Lower(name), denySuffixes) && !Contains(Lower(name), "docker")
  {
    DockerfileNeverMatches(name);
    OneOfTwo(Lower(name), "docker", "Dockerfile");
  }

  /** `any(sub in s for sub in [a, b])` is `a in s or b in s`. */
  lemma {:induction false} OneOfTwo(s: string, a: string, b: string)
    ensures ContainsAny(s, [a, b]) <==> Contains(s, a) || Contains(s, b)
  {
    var subs := [a, b];
    if Contains(s, a) {
      assert Contains(s, subs[0]);
    }
    if Contains(s, b) {
      assert Contains(s, subs[1]);
    }
  }

  /**
   * With `show_only_docker` a name is kept exactly when its lower-cased form
   * contains `docker` or `requirements.txt`, in every version and whether or
   * not `show_docker` is also set.
   */
  lemma {:induction false} OnlyDockerIff(name: Name, denySuffixes: seq<string>, denySubstrings: seq<string>, showDocker: bool)
    ensures NamePasses(name, denySuffixes, denySubstrings, showDocker, true)
        <==> Contains(Lower(name), "docker") || Contains(Lower(name), "requirements.txt")
  {
    var l := Lower(name);
    DockerfileNeverMatches(name);
    if Contains(l, "docker") {
      assert Contains(l, DockerSubstrings[0]);
    }
    if Contains(l, "requirements.txt") {
      assert Contains(l, DockerSubstrings[2]);
    }
    if ContainsAny(l, DockerSubstrings) {
      var k :| 0 <= k < 3 && Contains(l, DockerSubstrings[k]);
      assert k != 1;
    }
  }

  /** With `show_docker` alone no name is filtered out. */
  lemma {:induction false} ShowDockerKeepsAll(name: Name, denySuffixes: seq<string>, denySubstrings: seq<string>)
    ensures NamePasses(name, denySuffixes, denySubstrings, true, false)
  {
  }

  /**
   * In the default mode the oldest version keeps a name exactly when its
   * lower-cased form contains none of `docker`, `requirements.txt`, `.env` and
   * `prompt.md`: the `.env` suffix test is subsumed by the `.env` substring test.
   */
  lemma {:induction false} LegacyDefaultModeIff(name: Name)
    ensures LegacySelected(name, false, false)
        <==> !Contains(Lower(name), "docker") && !Contains(Lower(name), "requirements.txt")
             && !Contains(Lower(name), ".env") && !Contains(Lower(name), "prompt.md")
  {
    var l := Lower(name);
    var subs := LegacyDenySubstrings;
    DockerfileNeverMatches(name);
    if EndsWithAny(l, LegacyDenySuffixes) {
      var k :| 0 <= k < 1 && EndsWith(l, LegacyDenySuffixes[k]);
      EndsWithContains(l, ".env");
    }
    if Contains(l, "docker") { assert Contains(l, subs[0]); }
    if Contains(l, "requirements.txt") { assert Contains(l, subs[2]); }
    if Contains(l, ".env") { assert Contains(l, subs[3]); }
    if Contains(l, "prompt.md") { assert Contains(l, subs[4]); }
    if ContainsAny(l, subs) {
      var k :| 0 <= k < 5 && Contains(l, subs[k]);
      assert k != 1;
    }
  }

  /**
   * `".{}".format(ext.lower())` for each item; `DotLowerIndex` and
   * `ExtListItems` state what each built extension is.
   */
  function DotLowerAll(items: seq<string>): (r: seq<string>)
    ensures |r| == |items|
  {
    if items == [] then [] else ["." + Lower(items[0])] + DotLowerAll(items[1..])
  }

  /**
   * `[".{}".format(ext.lower()) for ext in option.split(',')] if option else None`:
   * an absent or empty option gives no list at all.
   */
  function ExtList(option: Option<string>): Option<seq<string>>
  {
    if option.None? || option.value == "" then None else Some(DotLowerAll(SplitOn(option.value, ',')))
  }

  /** Dropping the leading dot of every item. */
  function Undot(exts: seq<string>): seq<string>
  {
    if exts == [] then [] else [if exts[0] != "" then exts[0][1..] else exts[0]] + Undot(exts[1..])
  }

  lemma {:induction false} UndotDotLower(items: seq<string>)
    ensures Undot(DotLowerAll(items)) == LowerAll(items)
  {
    if items != [] {
      UndotDotLower(items[1..]);
      assert ("." + Lower(items[0]))[1..] == Lower(items[0]);
      LowerAllCons(items[0], items[1..]);
      assert items == [items[0]] + items[1..];
    }
  }

  /**
   * A non-empty option gives one extension per comma-separated item: each is
   * a dot followed by the item lower-cased, and dropping the dots and joining
   * with commas gives back the option lower-cased.
   */
  lemma {:induction false} ExtListItems(s: string)
    requires s != ""
    ensures ExtList(Some(s)).Some?
    ensures var exts := ExtList(Some(s)).value;
            |exts| == |SplitOn(s, ',')|
            && (forall k :: 0 <= k < |exts| ==> exts[k] == "." + Lower(SplitOn(s, ',')[k]))
            && JoinWith(Undot(exts), ",") == Lower(s)
  {
    var items := SplitOn(s, ',');
    DotLowerIndex(items);
    UndotDotLower(items);
    LowerSplit(s, ',');
    JoinSplit(Lower(s), ',');
  }

  lemma {:induction false} DotLowerIndex(items: seq<string>)
    ensures forall k :: 0 <= k < |items| ==> DotLowerAll(items)[k] == "." + Lower(items[k])
  {
    if items != [] {
      DotLowerIndex(items[1..]);
    }
  }

  /**
   * With `--include` given as a non-empty option, a file passes the include
   * list exactly when its lower-cased extension is a dot followed by one of
   * the lower-cased comma-separated items.
   */
  lemma {:induction false} IncludeOptionIff(name: Name, s: string)
    requires s != ""
    ensures ExtPasses(name, ExtList(Some(s)), None)
        <==> exists k :: 0 <= k < |SplitOn(s, ',')| && LowerExt(name) == "." + Lower(SplitOn(s, ',')[k])
  {
    ExtListItems(s);
    var exts := ExtList(Some(s)).value;
    var items := SplitOn(s, ',');
    if LowerExt(name) in exts {
      var k :| 0 <= k < |exts| && exts[k] == LowerExt(name);
      assert LowerExt(name) == "." + Lower(items[k]);
    }
    if exists k :: 0 <= k < |items| && LowerExt(name) == "." + Lower(items[k]) {
      var k :| 0 <= k < |items| && LowerExt(name) == "." + Lower(items[k]);
      assert exts[k] == LowerExt(name);
    }
  }
}
