/** `remove_empty_lines`: the lossy blank-line stripping applied to every inlined file. */
module Lines {
  import opened PyStr

  /** The lines for which `line.strip()` is non-empty, in their original order. */
  function NonBlank(ls: seq<string>): seq<string>
  {
    if ls == [] then [] else (if IsBlank(ls[0]) then [] else [ls[0]]) + NonBlank(ls[1..])
  }

  /** The kept lines are exactly the non-blank ones, so none of them is blank, and there are no more of them. */
  lemma {:induction false} NonBlankMember(ls: seq<string>)
    ensures |NonBlank(ls)| <= |ls|
    ensures forall l :: l in NonBlank(ls) <==> l in ls && !IsBlank(l)
    ensures forall k :: 0 <= k < |NonBlank(ls)| ==> !IsBlank(NonBlank(ls)[k])
  {
    if ls != [] {
      NonBlankMember(ls[1..]);
      assert forall l :: l in ls <==> l == ls[0] || l in ls[1..];
    }
  }

  /** Filtering keeps the order: the kept lines of a concatenation are the kept lines of each part. */
  lemma {:induction false} NonBlankAppend(a: seq<string>, b: seq<string>)
    ensures NonBlank(a + b) == NonBlank(a) + NonBlank(b)
  {
    if a != [] {
      NonBlankAppend(a[1..], b);
      assert (a + b)[0] == a[0];
      assert (a + b)[1..] == a[1..] + b;
    } else {
      assert a + b == b;
    }
  }

  /** A list with no blank line is kept whole. */
  lemma {:induction false} NonBlankKeepsAll(ls: seq<string>)
    requires forall k :: 0 <= k < |ls| ==> !IsBlank(ls[k])
    ensures NonBlank(ls) == ls
  {
    if ls != [] {
      NonBlankKeepsAll(ls[1..]);
    }
  }

  /** `"\n".join([line for line in text.split("\n") if line.strip()])` */
  function RemoveEmptyLines(text: string): string
  {
    JoinWith(NonBlank(SplitOn(text, '\n')), "\n")
  }

  /**
   * The lines of the result are exactly the non-blank lines of the input, in
   * order; when there are none the result is empty.
   */
  lemma {:induction false} RemoveEmptyLinesLines(text: string)
    ensures var kept := NonBlank(SplitOn(text, '\n'));
            if kept == [] then RemoveEmptyLines(text) == ""
            else SplitOn(RemoveEmptyLines(text), '\n') == kept
  {
    var lines := SplitOn(text, '\n');
    var kept := NonBlank(lines);
    NonBlankMember(lines);
    SplitOnPieces(text, '\n');
    if kept != [] {
      forall k | 0 <= k < |kept| ensures '\n' !in kept[k] {
        assert kept[k] in lines;
      }
      SplitJoin(kept, '\n');
    }
  }

  /** No line of a non-empty result is blank. */
  lemma {:induction false} RemoveEmptyLinesNoBlank(text: string)
    ensures RemoveEmptyLines(text) == ""
         || forall k :: 0 <= k < |SplitOn(RemoveEmptyLines(text), '\n')| ==> !IsBlank(SplitOn(RemoveEmptyLines(text), '\n')[k])
  {
    RemoveEmptyLinesLines(text);
    NonBlankMember(SplitOn(text, '\n'));
  }

  /** Stripping blank lines twice is stripping them once. */
  lemma {:induction false} RemoveEmptyLinesIdempotent(text: string)
    ensures RemoveEmptyLines(RemoveEmptyLines(text)) == RemoveEmptyLines(text)
  {
    var kept := NonBlank(SplitOn(text, '\n'));
    RemoveEmptyLinesLines(text);
    NonBlankMember(SplitOn(text, '\n'));
    if kept == [] {
      assert SplitOn("", '\n') == [""];
      assert IsBlank("");
    } else {
      NonBlankKeepsAll(kept);
    }
  }
}
