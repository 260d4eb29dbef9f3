/** The Python `str` and `list` operations the summarizer relies on, over `seq<char>`. */
module PyStr {

  /** `t` occurs in `s` starting at index `i`. */
  predicate OccursAt(s: string, t: string, i: int)
  {
    0 <= i && i + |t| <= |s| && s[i..i + |t|] == t
  }

  /** `s.startswith(t)` */
  predicate StartsWith(s: string, t: string)
  {
    |t| <= |s| && s[..|t|] == t
  }

  /** `s.endswith(t)` */
  predicate EndsWith(s: string, t: string)
  {
    |t| <= |s| && s[|s| - |t|..] == t
  }

  /** `t in s` for two strings: substring containment, searched left to right. */
  predicate Contains(s: string, t: string)
    decreases |s|
  {
    StartsWith(s, t) || (|s| > 0 && Contains(s[1..], t))
  }

  /** The search above finds `t` exactly when `t` occurs somewhere in `s`. */
  lemma {:induction false} ContainsIff(s: string, t: string)
    ensures Contains(s, t) <==> exists i :: OccursAt(s, t, i)
    decreases |s|
  {
    if StartsWith(s, t) {
      assert OccursAt(s, t, 0);
    } else if |s| > 0 {
      ContainsIff(s[1..], t);
      if Contains(s[1..], t) {
        var i :| OccursAt(s[1..], t, i);
        assert s[1..][i..i + |t|] == s[i + 1..i + 1 + |t|];
        assert OccursAt(s, t, i + 1);
      }
      if exists i :: OccursAt(s, t, i) {
        var i :| OccursAt(s, t, i);
        assert i != 0;
        assert s[1..][i - 1..i - 1 + |t|] == s[i..i + |t|];
        assert OccursAt(s[1..], t, i - 1);
      }
    } else {
      assert forall i :: !OccursAt(s, t, i);
    }
  }

  /** Appending text never destroys an occurrence. */
  lemma {:induction false} ContainsAppend(s: string, u: string, t: string)
    requires Contains(s, t)
    ensures Contains(s + u, t)
  {
    ContainsIff(s, t);
    var i :| OccursAt(s, t, i);
    assert (s + u)[i..i + |t|] == s[i..i + |t|];
    assert OccursAt(s + u, t, i);
    ContainsIff(s + u, t);
  }

  /** A suffix is in particular a substring. */
  lemma {:induction false} EndsWithContains(s: string, t: string)
    requires EndsWith(s, t)
    ensures Contains(s, t)
  {
    assert OccursAt(s, t, |s| - |t|);
    ContainsIff(s, t);
  }

  /** Every character of a substring occurs in the string. */
  lemma {:induction false} ContainsFirstChar(s: string, t: string)
    requires |t| > 0 && Contains(s, t)
    ensures t[0] in s
  {
    ContainsIff(s, t);
    var i :| OccursAt(s, t, i);
    assert s[i] == s[i..i + |t|][0];
  }

  /** `any(sub in s for sub in subs)` */
  predicate ContainsAny(s: string, subs: seq<string>)
  {
    exists k :: 0 <= k < |subs| && Contains(s, subs[k])
  }

  /** `s.endswith(tuple(suffixes))` */
  predicate EndsWithAny(s: string, suffixes: seq<string>)
  {
    exists k :: 0 <= k < |suffixes| && EndsWith(s, suffixes[k])
  }

  /** `c.lower()` for the ASCII letters; every other character is left alone. */
  function LowerChar(c: char): char
  {
    if 'A' <= c <= 'Z' then (c as int + 32) as char else c
  }

  /** `s.lower()`, character by character. */
  function Lower(s: string): (r: string)
    ensures |r| == |s|
    ensures forall i :: 0 <= i < |s| ==> r[i] == LowerChar(s[i])
  {
    if s == [] then [] else [LowerChar(s[0])] + Lower(s[1..])
  }

  /** A lower-cased string holds no upper-case ASCII letter. */
  lemma {:induction false} LowerHasNoUpper(s: string, c: char)
    requires 'A' <= c <= 'Z'
    ensures c !in Lower(s)
  {
    forall i | 0 <= i < |s| ensures Lower(s)[i] != c {
      assert Lower(s)[i] == LowerChar(s[i]);
    }
  }

  /** Lower-casing twice is lower-casing once. */
  lemma {:induction false} LowerIdempotent(s: string)
    ensures Lower(Lower(s)) == Lower(s)
  {
    assert forall i :: 0 <= i < |s| ==> Lower(Lower(s))[i] == Lower(s)[i];
  }

  /** `s.replace("\\", "/")` */
  function ReplaceBackslashes(s: string): (r: string)
    ensures |r| == |s|
    ensures forall i :: 0 <= i < |s| ==> r[i] == (if s[i] == '\\' then '/' else s[i])
  {
    if s == [] then [] else [if s[0] == '\\' then '/' else s[0]] + ReplaceBackslashes(s[1..])
  }

  /** Normalised text holds no backslash, and normalising it again changes nothing. */
  lemma {:induction false} ReplaceBackslashesNormal(s: string)
    ensures '\\' !in ReplaceBackslashes(s)
    ensures ReplaceBackslashes(ReplaceBackslashes(s)) == ReplaceBackslashes(s)
  {
    var r := ReplaceBackslashes(s);
    assert forall i :: 0 <= i < |r| ==> r[i] != '\\';
    assert forall i :: 0 <= i < |r| ==> ReplaceBackslashes(r)[i] == r[i];
  }

  /** Index of the first occurrence of `c` (`s.index(c)`). */
  function IndexOf(s: string, c: char): (i: nat)
    requires c in s
    ensures i < |s| && s[i] == c && c !in s[..i]
  {
    if s[0] == c then 0
    else
      var j := IndexOf(s[1..], c);
      assert s[..j + 1] == [s[0]] + s[1..][..j];
      j + 1
  }

  /** The first `c` of `a + [c] + b` is the one after `a` when `a` has none. */
  lemma {:induction false} IndexOfAfter(a: string, c: char, b: string)
    requires c !in a
    ensures IndexOf(a + [c] + b, c) == |a|
  {
    if a != [] {
      IndexOfAfter(a[1..], c, b);
      assert (a + [c] + b)[1..] == a[1..] + [c] + b;
    }
  }

  /** Index of the last occurrence of `c` (`s.rfind(c)`), or -1. */
  function LastIndexOf(s: string, c: char): (i: int)
    ensures -1 <= i < |s|
    ensures i >= 0 ==> s[i] == c
    ensures forall k :: i < k < |s| ==> s[k] != c
  {
    if s == [] then -1
    else if s[|s| - 1] == c then |s| - 1
    else LastIndexOf(s[..|s| - 1], c)
  }

  /** The last `c` of `a + [c] + b` is the one after `a` when `b` has none. */
  lemma {:induction false} LastIndexOfBefore(a: string, c: char, b: string)
    requires c !in b
    ensures LastIndexOf(a + [c] + b, c) == |a|
    decreases |b|
  {
    if b != [] {
      var s := a + [c] + b;
      assert s[..|s| - 1] == a + [c] + b[..|b| - 1];
      assert s[|s| - 1] == b[|b| - 1];
      LastIndexOfBefore(a, c, b[..|b| - 1]);
    }
  }

  /** `s.split(sep)` for a one-character separator. */
  function SplitOn(s: string, sep: char): (r: seq<string>)
    ensures |r| >= 1
    decreases |s|
  {
    if sep !in s then [s]
    else
      var i := IndexOf(s, sep);
      [s[..i]] + SplitOn(s[i + 1..], sep)
  }

  /** No piece of a split holds the separator. */
  lemma {:induction false} SplitOnPieces(s: string, sep: char)
    ensures forall k :: 0 <= k < |SplitOn(s, sep)| ==> sep !in SplitOn(s, sep)[k]
    decreases |s|
  {
    if sep in s {
      var i := IndexOf(s, sep);
      SplitOnPieces(s[i + 1..], sep);
      assert sep !in s[..i];
    }
  }

  /** `sep.join(ls)` */
  function JoinWith(ls: seq<string>, sep: string): string
  {
    if |ls| == 0 then ""
    else if |ls| == 1 then ls[0]
    else ls[0] + sep + JoinWith(ls[1..], sep)
  }

  /** Joining the pieces of a split with the same separator gives the text back. */
  lemma {:induction false} JoinSplit(s: string, sep: char)
    ensures JoinWith(SplitOn(s, sep), [sep]) == s
    decreases |s|
  {
    if sep in s {
      var i := IndexOf(s, sep);
      var rest := SplitOn(s[i + 1..], sep);
      JoinSplit(s[i + 1..], sep);
      assert ([s[..i]] + rest)[1..] == rest;
      assert s == s[..i] + [sep] + s[i + 1..];
    }
  }

  /** Splitting a join recovers the pieces, provided none holds the separator. */
  lemma {:induction false} SplitJoin(ls: seq<string>, sep: char)
    requires |ls| >= 1
    requires forall k :: 0 <= k < |ls| ==> sep !in ls[k]
    ensures SplitOn(JoinWith(ls, [sep]), sep) == ls
  {
    if |ls| > 1 {
      var x, xs := ls[0], ls[1..];
      forall k | 0 <= k < |xs|
        ensures sep !in xs[k]
      {
        assert xs[k] == ls[k + 1];
      }
      SplitJoin(xs, sep);
      assert sep !in ls[0];
      assert JoinWith(ls, [sep]) == x + [sep] + JoinWith(xs, [sep]);
      SplitOnCut(x, sep, JoinWith(xs, [sep]));
      assert ls == [x] + xs;
    }
  }

  /** Splitting `a + [sep] + b`, where `a` holds no `sep`, cuts off `a` first. */
  lemma {:induction false} SplitOnCut(a: string, sep: char, b: string)
    requires sep !in a
    ensures SplitOn(a + [sep] + b, sep) == [a] + SplitOn(b, sep)
  {
    var s := a + [sep] + b;
    assert s[|a|] == sep;
    IndexOfAfter(a, sep, b);
    assert s[..|a|] == a;
    assert s[|a| + 1..] == b;
  }

  /** A character that is no ASCII letter is unaffected by lower-casing. */
  predicate IsNotLetter(c: char)
  {
    !('A' <= c <= 'Z') && !('a' <= c <= 'z')
  }

  /** Lower-casing moves no occurrence of a non-letter. */
  lemma {:induction false} LowerIndexOf(s: string, sep: char)
    requires IsNotLetter(sep)
    ensures (sep in Lower(s)) == (sep in s)
    ensures sep in s ==> IndexOf(Lower(s), sep) == IndexOf(s, sep)
    decreases |s|
  {
    if s != [] {
      LowerIndexOf(s[1..], sep);
      assert Lower(s) == [LowerChar(s[0])] + Lower(s[1..]);
      assert s == [s[0]] + s[1..];
    }
  }

  /** Lower-casing distributes over slicing. */
  lemma {:induction false} LowerSlice(s: string, i: nat, j: nat)
    requires i <= j <= |s|
    ensures Lower(s[i..j]) == Lower(s)[i..j]
  {
    assert forall k :: 0 <= k < j - i ==> Lower(s[i..j])[k] == Lower(s)[i..j][k];
  }

  /** Each string of a list lower-cased. */
  function LowerAll(ls: seq<string>): (r: seq<string>)
    ensures |r| == |ls|
  {
    if ls == [] then [] else [Lower(ls[0])] + LowerAll(ls[1..])
  }

  /** Lower-casing a list lower-cases its first string and then the rest. */
  lemma {:induction false} LowerAllCons(x: string, xs: seq<string>)
    ensures LowerAll([x] + xs) == [Lower(x)] + LowerAll(xs)
  {
    assert ([x] + xs)[0] == x;
    assert ([x] + xs)[1..] == xs;
  }

  /** The strings of a lower-cased list are its strings lower-cased. */
  lemma {:induction false} LowerAllIndex(ls: seq<string>)
    ensures forall k :: 0 <= k < |ls| ==> LowerAll(ls)[k] == Lower(ls[k])
  {
    if ls != [] {
      LowerAllIndex(ls[1..]);
    }
  }

  /** Splitting lower-cased text cuts it at the place the original is cut. */
  lemma {:induction false} LowerSplitFirst(s: string, sep: char)
    requires IsNotLetter(sep) && sep in s
    ensures sep in Lower(s)
    ensures SplitOn(Lower(s), sep)
         == [Lower(s[..IndexOf(s, sep)])] + SplitOn(Lower(s[IndexOf(s, sep) + 1..]), sep)
  {
    var i := IndexOf(s, sep);
    var a, b := s[..i], s[i + 1..];
    assert s == a + [sep] + b;
    LowerAppend(a + [sep], b);
    LowerAppend(a, [sep]);
    assert Lower([sep]) == [sep];
    LowerIndexOf(a, sep);
    SplitOnCut(Lower(a), sep, Lower(b));
  }

  /** Lower-casing distributes over concatenation. */
  lemma {:induction false} LowerAppend(x: string, y: string)
    ensures Lower(x + y) == Lower(x) + Lower(y)
  {
    var l, r := Lower(x + y), Lower(x) + Lower(y);
    forall k | 0 <= k < |l|
      ensures l[k] == r[k]
    {
      if k < |x| {
        assert (x + y)[k] == x[k];
      } else {
        assert (x + y)[k] == y[k - |x|];
      }
    }
    assert l == r;
  }

  /** Lower-casing commutes with splitting on a character that is no letter. */
  lemma {:induction false} LowerSplit(s: string, sep: char)
    requires IsNotLetter(sep)
    ensures SplitOn(Lower(s), sep) == LowerAll(SplitOn(s, sep))
    decreases |s|
  {
    if sep in s {
      var i := IndexOf(s, sep);
      var pieces := SplitOn(s[i + 1..], sep);
      LowerSplitFirst(s, sep);
      LowerSplit(s[i + 1..], sep);
      assert SplitOn(s, sep) == [s[..i]] + pieces;
      LowerAllCons(s[..i], pieces);
    } else {
      LowerIndexOf(s, sep);
      LowerAllCons(s, []);
    }
  }

  /** `s.replace(t, "")`: the occurrences of `t`, found left to right without overlap, removed. */
  function RemoveAll(s: string, t: string): (r: string)
    ensures |r| <= |s|
    decreases |s|
  {
    if t == "" || s == "" then s
    else if StartsWith(s, t) then RemoveAll(s[|t|..], t)
    else [s[0]] + RemoveAll(s[1..], t)
  }

  /** `s.count(c)` for a single character. */
  function CountChar(s: string, c: char): (n: nat)
    ensures n <= |s|
    ensures n == 0 <==> c !in s
  {
    if s == [] then 0 else (if s[0] == c then 1 else 0) + CountChar(s[1..], c)
  }

  /** Counting in a concatenation is counting in each part. */
  lemma {:induction false} CountCharAppend(a: string, b: string, c: char)
    ensures CountChar(a + b, c) == CountChar(a, c) + CountChar(b, c)
    decreases |a|
  {
    if a != [] {
      CountCharAppend(a[1..], b, c);
      assert (a + b)[0] == a[0];
      assert (a + b)[1..] == a[1..] + b;
    } else {
      assert a + b == b;
    }
  }

  /** Removing text that does not hold `c` leaves the count of `c` alone. */
  lemma {:induction false} CountRemoveAll(s: string, t: string, c: char)
    requires c !in t
    ensures CountChar(RemoveAll(s, t), c) == CountChar(s, c)
    decreases |s|
  {
    if t != "" && s != "" {
      if StartsWith(s, t) {
        CountRemoveAll(s[|t|..], t, c);
        assert s == t + s[|t|..];
        CountCharAppend(t, s[|t|..], c);
      } else {
        CountRemoveAll(s[1..], t, c);
        CountCharAppend([s[0]], RemoveAll(s[1..], t), c);
        assert s == [s[0]] + s[1..];
        CountCharAppend([s[0]], s[1..], c);
      }
    }
  }

  /** Python's whitespace characters, those `str.strip()` removes. */
  predicate IsSpace(c: char)
  {
    c == ' ' || ('\t' <= c <= '\r') || ('\U{1c}' <= c <= '\U{1f}')
    || c == '\U{85}' || c == '\U{a0}' || c == '\U{1680}'
    || ('\U{2000}' <= c <= '\U{200a}') || c == '\U{2028}' || c == '\U{2029}'
    || c == '\U{202f}' || c == '\U{205f}' || c == '\U{3000}'
  }

  /** `not line.strip()`: the line is empty or whitespace only. */
  predicate IsBlank(line: string)
  {
    forall i :: 0 <= i < |line| ==> IsSpace(line[i])
  }

  /** `' ' * n` */
  function Spaces(n: nat): string
  {
    seq(n, _ => ' ')
  }

  /** Concatenation of sequences is associative. */
  lemma {:induction false} SeqAssoc<T>(a: seq<T>, b: seq<T>, c: seq<T>)
    ensures (a + b) + c == a + (b + c)
  {
  }

  /** `''.join(ls)` */
  function Concat(ls: seq<string>): string
  {
    if ls == [] then "" else ls[0] + Concat(ls[1..])
  }

  /**
   * `f.readlines()` of a file opened in text mode: the text cut after every
   * newline; only the last piece may lack one.
   */
  function Readlines(t: string): (r: seq<string>)
    decreases |t|
  {
    if t == "" then []
    else if '\n' !in t then [t]
    else
      var i := IndexOf(t, '\n');
      [t[..i + 1]] + Readlines(t[i + 1..])
  }

  /** Reading lines loses nothing: joining them gives the text back. */
  lemma {:induction false} ConcatReadlines(t: string)
    ensures Concat(Readlines(t)) == t
    decreases |t|
  {
    if t != "" && '\n' in t {
      var i := IndexOf(t, '\n');
      ConcatReadlines(t[i + 1..]);
      assert ([t[..i + 1]] + Readlines(t[i + 1..]))[1..] == Readlines(t[i + 1..]);
      assert t == t[..i + 1] + t[i + 1..];
    }
  }

  /** Every line but the last ends with a newline, and no line is empty. */
  lemma {:induction false} ReadlinesShape(t: string)
    ensures forall k :: 0 <= k < |Readlines(t)| ==> Readlines(t)[k] != ""
    ensures forall k :: 0 <= k < |Readlines(t)| - 1 ==> Readlines(t)[k][|Readlines(t)[k]| - 1] == '\n'
    decreases |t|
  {
    if t != "" && '\n' in t {
      var i := IndexOf(t, '\n');
      ReadlinesShape(t[i + 1..]);
    }
  }

  /** Re-reading the first `n` lines of a text gives exactly those lines back. */
  lemma {:induction false} ReadlinesOfPrefix(t: string, n: nat)
    requires n <= |Readlines(t)|
    ensures Readlines(Concat(Readlines(t)[..n])) == Readlines(t)[..n]
    decreases |t|
  {
    if n > 0 {
      var ls := Readlines(t);
      if '\n' !in t {
        assert ls[..n] == [t];
        assert Concat([t]) == t;
      } else {
        var i := IndexOf(t, '\n');
        var a, rest := t[..i], t[i + 1..];
        assert t == a + ['\n'] + rest;
        ReadlinesCut(a, rest);
        ReadlinesOfPrefix(rest, n - 1);
        ReadlinesOfPrefixCons(a, rest, n);
      }
    }
  }

  /** The step of the induction above: one more first line in front. */
  lemma {:induction false} ReadlinesOfPrefixCons(a: string, rest: string, n: nat)
    requires '\n' !in a && 1 <= n && n - 1 <= |Readlines(rest)|
    requires Readlines(Concat(Readlines(rest)[..n - 1])) == Readlines(rest)[..n - 1]
    ensures n <= |Readlines(a + ['\n'] + rest)|
    ensures Readlines(Concat(Readlines(a + ['\n'] + rest)[..n])) == Readlines(a + ['\n'] + rest)[..n]
  {
    var first := a + ['\n'];
    var more := Readlines(rest)[..n - 1];
    ReadlinesCut(a, rest);
    assert Readlines(a + ['\n'] + rest)[..n] == [first] + more;
    ConcatCons(first, more);
    ReadlinesCut(a, Concat(more));
  }

  /** Reading lines of `a + "\n" + b`, where `a` holds no newline, yields `a + "\n"` first. */
  lemma {:induction false} ReadlinesCut(a: string, b: string)
    requires '\n' !in a
    ensures Readlines(a + ['\n'] + b) == [a + ['\n']] + Readlines(b)
  {
    var t := a + ['\n'] + b;
    assert t[|a|] == '\n';
    IndexOfAfter(a, '\n', b);
    assert t[..|a| + 1] == a + ['\n'];
    assert t[|a| + 1..] == b;
  }

  lemma {:induction false} ConcatCons(x: string, xs: seq<string>)
    ensures Concat([x] + xs) == x + Concat(xs)
  {
    assert ([x] + xs)[0] == x;
    assert ([x] + xs)[1..] == xs;
  }

  /** Python's `s[:n]`; a negative `n` counts from the end. */
  function SliceTo<T>(s: seq<T>, n: int): (r: seq<T>)
    ensures |r| == (if n >= 0 then (if n <= |s| then n else |s|) else (if |s| + n >= 0 then |s| + n else 0))
    ensures r == s[..|r|]
  {
    if n >= 0 then (if n <= |s| then s[..n] else s)
    else (if |s| + n >= 0 then s[..|s| + n] else [])
  }
}
