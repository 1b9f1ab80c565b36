/**
 * String and path helpers of the file-system class loader and of its unit
 * test: splitting a path at a separator and joining it back, trimming
 * trailing separators, the test's compose() and newType() helpers, and the
 * normalisation of a list of path segments.
 *
 * Paths use the directory separator '/'.
 */
module ClassPaths {
  import opened Wrappers

  const Separator: char := '/'

  /** The extension of a class file (xp::CLASS_FILE_EXT). */
  const ClassFileExt: string := ".class.php"

  predicate Free(s: string, c: char)
  {
    forall i :: 0 <= i < |s| ==> s[i] != c
  }

  // ---------------------------------------------------------------------
  // Splitting and joining

  /** The pieces of s between occurrences of sep (explode). */
  function Split(s: string, sep: char): (r: seq<string>)
    ensures |r| >= 1
    ensures forall k :: 0 <= k < |r| ==> Free(r[k], sep)
    decreases |s|
  {
    if s == [] then [""]
    else
      var tail := Split(s[1..], sep);
      if s[0] == sep then [""] + tail
      else [[s[0]] + tail[0]] + tail[1..]
  }

  /** The pieces, with sep between each two (implode). */
  function Join(parts: seq<string>, sep: char): (r: string)
    ensures parts != [] ==> parts[0] <= r
    ensures |parts| > 1 ==> |r| > |parts[0]| && r[|parts[0]|] == sep
    decreases |parts|
  {
    if parts == [] then ""
    else if |parts| == 1 then parts[0]
    else parts[0] + [sep] + Join(parts[1..], sep)
  }

  /** Joining the pieces of a string gives the string back. */
  lemma {:induction false} JoinSplit(s: string, sep: char)
    ensures Join(Split(s, sep), sep) == s
    decreases |s|
  {
    if s != [] {
      JoinSplit(s[1..], sep);
      var tail := Split(s[1..], sep);
      if s[0] != sep && |tail| > 1 {
        assert Join(tail, sep) == tail[0] + [sep] + Join(tail[1..], sep);
      }
    }
  }

  /** Splitting joined pieces gives the pieces back, when no piece holds the separator. */
  lemma {:induction false} SplitJoin(parts: seq<string>, sep: char)
    requires |parts| >= 1
    requires forall k :: 0 <= k < |parts| ==> Free(parts[k], sep)
    ensures Split(Join(parts, sep), sep) == parts
    decreases |parts|
  {
    if |parts| == 1 {
      SplitFree(parts[0], sep);
    } else {
      var rest := Join(parts[1..], sep);
      SplitJoin(parts[1..], sep);
      SplitSepPrefix(rest, sep);
      var t := Split([sep] + rest, sep);
      assert t == [""] + parts[1..];
      assert t[0] == "" && t[1..] == parts[1..];
      SplitAppend(parts[0], [sep] + rest, sep);
      assert Join(parts, sep) == parts[0] + ([sep] + rest);
      assert parts[0] + "" == parts[0];
      assert [parts[0]] + parts[1..] == parts;
    }
  }

  /** A string without the separator is one piece. */
  lemma {:induction false} SplitFree(s: string, sep: char)
    requires Free(s, sep)
    ensures Split(s, sep) == [s]
    decreases |s|
  {
    if s != [] {
      assert Free(s[1..], sep) by {
        forall i | 0 <= i < |s[1..]| ensures s[1..][i] != sep {
          assert s[1..][i] == s[i + 1];
        }
      }
      SplitFree(s[1..], sep);
      assert [s[0]] + s[1..] == s;
    }
  }

  lemma SplitSepPrefix(s: string, sep: char)
    ensures Split([sep] + s, sep) == [""] + Split(s, sep)
  {
    assert ([sep] + s)[1..] == s;
  }

  /** A separator-free prefix glues onto the first piece. */
  lemma {:induction false} SplitAppend(a: string, b: string, sep: char)
    requires Free(a, sep)
    ensures var t := Split(b, sep); Split(a + b, sep) == [a + t[0]] + t[1..]
    decreases |a|
  {
    if a != [] {
      assert (a + b)[0] == a[0];
      assert (a + b)[1..] == a[1..] + b;
      assert Free(a[1..], sep) by {
        forall i | 0 <= i < |a[1..]| ensures a[1..][i] != sep {
          assert a[1..][i] == a[i + 1];
        }
      }
      SplitAppend(a[1..], b, sep);
      assert [a[0]] + (a[1..] + Split(b, sep)[0]) == a + Split(b, sep)[0];
    } else {
      var t := Split(b, sep);
      assert a + b == b;
      assert a + t[0] == t[0];
      assert [t[0]] + t[1..] == t;
    }
  }

  /** A join whose first piece is not empty starts with that piece's first character. */
  lemma JoinHead(parts: seq<string>, sep: char)
    requires |parts| >= 1 && parts[0] != ""
    ensures Join(parts, sep) != [] && Join(parts, sep)[0] == parts[0][0]
  {
    if |parts| > 1 {
      assert Join(parts, sep) == parts[0] + ([sep] + Join(parts[1..], sep));
    }
  }

  /** Joining a concatenation joins the two halves with one more separator. */
  lemma {:induction false} JoinConcat(xs: seq<string>, ys: seq<string>, sep: char)
    requires |xs| >= 1 && |ys| >= 1
    ensures Join(xs + ys, sep) == Join(xs, sep) + [sep] + Join(ys, sep)
    decreases |xs|
  {
    assert (xs + ys)[0] == xs[0];
    if |xs| == 1 {
      assert (xs + ys)[1..] == ys;
    } else {
      assert (xs + ys)[1..] == xs[1..] + ys;
      JoinConcat(xs[1..], ys, sep);
    }
  }

  /** Appending text to a join appends it to the last piece. */
  lemma {:induction false} JoinAppendLast(xs: seq<string>, a: string, t: string, sep: char)
    ensures Join(xs + [a], sep) + t == Join(xs + [a + t], sep)
  {
    if xs == [] {
      assert xs + [a] == [a];
      assert xs + [a + t] == [a + t];
    } else {
      JoinConcat(xs, [a], sep);
      JoinConcat(xs, [a + t], sep);
      assert Join([a], sep) == a && Join([a + t], sep) == a + t;
      assert Join(xs, sep) + [sep] + a + t == Join(xs, sep) + [sep] + (a + t);
    }
  }

  // ---------------------------------------------------------------------
  // Character replacement (strtr with one character each side)

  function Replace(s: string, from: char, to: char): (r: string)
    ensures |r| == |s|
    ensures forall i {:trigger r[i]} :: 0 <= i < |s| ==> r[i] == (if s[i] == from then to else s[i])
    decreases |s|
  {
    if s == [] then [] else [if s[0] == from then to else s[0]] + Replace(s[1..], from, to)
  }

  /** Replacing one separator by another and splitting at the new one is splitting at the old one. */
  lemma {:induction false} SplitReplace(s: string, from: char, to: char)
    requires Free(s, to)
    ensures Split(Replace(s, from, to), to) == Split(s, from)
    decreases |s|
  {
    if s != [] {
      SplitReplace(s[1..], from, to);
      assert Replace(s, from, to)[1..] == Replace(s[1..], from, to);
    }
  }

  /** A string without the replaced character is unchanged. */
  lemma ReplaceFree(s: string, from: char, to: char)
    requires Free(s, from)
    ensures Replace(s, from, to) == s
  {
  }

  lemma ReplaceAppend(a: string, b: string, from: char, to: char)
    ensures Replace(a + b, from, to) == Replace(a, from, to) + Replace(b, from, to)
  {
  }

  /**
   * Replacing the separator of a join by another character joins the same
   * pieces with that character, when no piece holds either.
   */
  lemma {:induction false} ReplaceJoin(parts: seq<string>, from: char, to: char)
    requires forall k :: 0 <= k < |parts| ==> Free(parts[k], from)
    ensures Replace(Join(parts, from), from, to) == Join(parts, to)
    decreases |parts|
  {
    if parts == [] {
    } else if |parts| == 1 {
      ReplaceFree(parts[0], from, to);
    } else {
      ReplaceJoin(parts[1..], from, to);
      JoinStep(parts, from);
      JoinStep(parts, to);
      ReplaceSeparator(parts[0], Join(parts[1..], from), from, to);
    }
  }

  /** A join of two or more pieces is the first piece, a separator and the join of the rest. */
  lemma JoinStep(parts: seq<string>, sep: char)
    requires |parts| >= 2
    ensures Join(parts, sep) == parts[0] + ([sep] + Join(parts[1..], sep))
  {
  }

  /** Replacing in a piece free of the character, a separator and a tail replaces the separator and the tail only. */
  lemma ReplaceSeparator(a: string, rest: string, from: char, to: char)
    requires Free(a, from)
    ensures Replace(a + ([from] + rest), from, to) == a + ([to] + Replace(rest, from, to))
  {
    ReplaceFree(a, from, to);
    ReplaceAppend(a, [from] + rest, from, to);
    ReplaceAppend([from], rest, from, to);
    assert Replace([from], from, to) == [to];
  }

  /** s ends with suffix. */
  predicate EndsWith(s: string, suffix: string)
  {
    |s| >= |suffix| && s[|s| - |suffix|..] == suffix
  }

  // ---------------------------------------------------------------------
  // rtrim and the test's compose() helper

  /** s without its trailing occurrences of c (rtrim). */
  function RTrim(s: string, c: char): (r: string)
    ensures |r| <= |s| && r == s[..|r|]
    ensures r == [] || r[|r| - 1] != c
    ensures forall i :: |r| <= i < |s| ==> s[i] == c
    decreases |s|
  {
    if s != [] && s[|s| - 1] == c then RTrim(s[..|s| - 1], c) else s
  }

  /** An argument of compose(): a path string, or NULL. */
  function Trimmed(args: seq<Option<string>>): (r: seq<string>)
    ensures |r| == |args|
    ensures forall k :: 0 <= k < |args| ==> r[k] == if args[k].Some? then RTrim(args[k].value, Separator) else ""
  {
    seq(|args|, k requires 0 <= k < |args| => if args[k].Some? then RTrim(args[k].value, Separator) else "")
  }

  /** compose(): the arguments, trailing separators trimmed, joined with the separator. */
  function Compose(args: seq<Option<string>>): string
  {
    Join(Trimmed(args), Separator)
  }

  /**
   * The pieces of a composed path are the trimmed arguments: a NULL gives
   * an empty piece, so a leading NULL makes the path absolute and a NULL
   * between two arguments doubles the separator.
   */
  lemma ComposePieces(args: seq<Option<string>>)
    requires |args| >= 1
    requires forall k :: 0 <= k < |args| && args[k].Some? ==> Free(RTrim(args[k].value, Separator), Separator)
    ensures Split(Compose(args), Separator) == Trimmed(args)
  {
    SplitJoin(Trimmed(args), Separator);
  }

  // ---------------------------------------------------------------------
  // The test's newType() helper

  /** The position of the last c in s (strrpos), if any. */
  function LastIndexOf(s: string, c: char): (r: Option<nat>)
    ensures r.None? <==> Free(s, c)
    ensures r.Some? ==> r.value < |s| && s[r.value] == c && Free(s[r.value + 1..], c)
    decreases |s|
  {
    if s == [] then None
    else if s[|s| - 1] == c then Some(|s| - 1)
    else
      var r := LastIndexOf(s[..|s| - 1], c);
      assert r.Some? ==> s[r.value + 1..] == s[..|s| - 1][r.value + 1..] + [s[|s| - 1]];
      r
  }

  /** What newType() derives from a dotted class name. */
  datatype TypeFixture = TypeFixture(simpleName: string, path: string, namespace: string)

  /**
   * The simple name, the file path (without extension) and the namespace
   * declaration newType() writes for a class name.
   */
  function NewType(name: string): (r: TypeFixture)
    ensures Free(name, '.') ==> r == TypeFixture(name, name, "")
  {
    match LastIndexOf(name, '.')
    case None => TypeFixture(name, name, "")
    case Some(p) =>
      TypeFixture(name[p + 1..], Replace(name, '.', Separator),
                  "namespace " + Replace(name[..p], '.', '\\') + ";")
  }

  /**
   * For a dotted name the simple name is the last dotted piece, the path
   * has a separator for every dot, and the namespace declaration names the
   * prefix with backslashes for dots.
   */
  lemma NewTypeDotted(name: string)
    requires !Free(name, '.')
    ensures var parts := Split(name, '.');
      && NewType(name).simpleName == parts[|parts| - 1]
      && NewType(name).path == Replace(name, '.', Separator)
      && exists p :: 0 <= p < |name| && name[p] == '.' && Free(name[p + 1..], '.')
           && NewType(name).namespace == "namespace " + Replace(name[..p], '.', '\\') + ";"
  {
    var p := LastIndexOf(name, '.').value;
    SplitAfterLast(name, p, '.');
  }

  /** The last piece of a string is what follows the last separator. */
  lemma SplitAfterLast(s: string, p: nat, sep: char)
    requires p < |s| && s[p] == sep && Free(s[p + 1..], sep)
    ensures var parts := Split(s, sep); parts[|parts| - 1] == s[p + 1..]
  {
    assert s == s[..p] + [sep] + s[p + 1..];
    SplitLast(s[..p], s[p + 1..], sep);
  }

  lemma {:induction false} SplitLast(a: string, b: string, sep: char)
    requires Free(b, sep)
    ensures var parts := Split(a + [sep] + b, sep); |parts| >= 2 && parts[|parts| - 1] == b
    decreases |a|
  {
    if a == [] {
      assert a + [sep] + b == [sep] + b;
      SplitSepPrefix(b, sep);
      SplitFree(b, sep);
    } else {
      assert (a + [sep] + b)[0] == a[0];
      assert (a + [sep] + b)[1..] == a[1..] + [sep] + b;
      SplitLast(a[1..], b, sep);
    }
  }

  // ---------------------------------------------------------------------
  // Normalising a list of path segments

  /**
   * Walks the segments from left to right on top of a stack of directory
   * names: "" and "." are skipped, ".." pops a name and fails on an empty
   * stack (a path that climbs above the root), anything else is pushed.
   */
  function NormalizeFrom(stack: seq<string>, segs: seq<string>): (r: Option<seq<string>>)
    ensures r.None? ==> ".." in segs
    decreases |segs|
  {
    if segs == [] then Some(stack)
    else if segs[0] == "" || segs[0] == "." then NormalizeFrom(stack, segs[1..])
    else if segs[0] == ".." then
      if stack == [] then None else NormalizeFrom(stack[..|stack| - 1], segs[1..])
    else NormalizeFrom(stack + [segs[0]], segs[1..])
  }

  /** A segment that names a directory entry: not empty, not "." or "..", without a separator. */
  predicate Plain(seg: string)
  {
    seg != "" && seg != "." && seg != ".." && Free(seg, Separator)
  }

  predicate AllPlain(segs: seq<string>)
  {
    forall k :: 0 <= k < |segs| ==> Plain(segs[k])
  }

  /** Normalising a path of plain segments pushes all of them. */
  lemma {:induction false} NormalizePlain(stack: seq<string>, segs: seq<string>)
    requires AllPlain(segs)
    ensures NormalizeFrom(stack, segs) == Some(stack + segs)
    decreases |segs|
  {
    if segs == [] {
      assert stack + segs == stack;
    } else {
      NormalizePlain(stack + [segs[0]], segs[1..]);
      assert stack + [segs[0]] + segs[1..] == stack + segs;
    }
  }

  /** Normalising a concatenation normalises the second part from where the first left off. */
  lemma {:induction false} NormalizeAppend(stack: seq<string>, a: seq<string>, b: seq<string>)
    ensures NormalizeFrom(stack, a + b) ==
      match NormalizeFrom(stack, a)
      case None => None
      case Some(s) => NormalizeFrom(s, b)
    decreases |a|
  {
    if a == [] {
      assert a + b == b;
    } else {
      assert (a + b)[0] == a[0];
      assert (a + b)[1..] == a[1..] + b;
      if a[0] == "" || a[0] == "." {
        NormalizeAppend(stack, a[1..], b);
      } else if a[0] == ".." {
        if stack != [] {
          NormalizeAppend(stack[..|stack| - 1], a[1..], b);
        }
      } else {
        NormalizeAppend(stack + [a[0]], a[1..], b);
      }
    }
  }

  /** A "." or empty segment anywhere in a path does not change its normal form. */
  lemma NormalizeSkip(stack: seq<string>, a: seq<string>, skipped: string, b: seq<string>)
    requires skipped == "" || skipped == "."
    ensures NormalizeFrom(stack, a + [skipped] + b) == NormalizeFrom(stack, a + b)
  {
    NormalizeAppend(stack, a, [skipped] + b);
    NormalizeAppend(stack, a, b);
    assert a + [skipped] + b == a + ([skipped] + b);
    assert ([skipped] + b)[1..] == b;
  }

  /** A plain segment followed by ".." anywhere in a path does not change its normal form. */
  lemma NormalizeUpLevel(stack: seq<string>, a: seq<string>, dir: string, b: seq<string>)
    requires Plain(dir)
    ensures NormalizeFrom(stack, a + [dir, ".."] + b) == NormalizeFrom(stack, a + b)
  {
    NormalizeAppend(stack, a, [dir, ".."] + b);
    NormalizeAppend(stack, a, b);
    assert a + [dir, ".."] + b == a + ([dir, ".."] + b);
    assert ([dir, ".."] + b)[1..] == [".."] + b;
    assert ([".."] + b)[1..] == b;
    match NormalizeFrom(stack, a)
    case None =>
    case Some(s) =>
      assert (s + [dir])[..|s + [dir]| - 1] == s;
  }
}
