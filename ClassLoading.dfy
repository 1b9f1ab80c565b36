/**
 * The contract of the file-system class loader (lang.FileSystemClassLoader)
 * as its unit test pins it down: loadClass() finds the class file for a
 * dotted name under the loader's base directory, and classFromUri() maps a
 * path, relative to the base or absolute, back to that class, yielding null
 * for anything that is not a class file inside the base.
 *
 * The file system is a set of absolute paths, each a list of directory
 * entries from the root; a loaded class is a handle naming the class.
 */
module ClassLoading {
  import opened Wrappers
  import opened ClassPaths

  /** The files and directories that exist, as lists of entries from the root. */
  datatype FileTree = FileTree(files: set<seq<string>>, dirs: set<seq<string>>)

  /** A file-system class loader over a base directory. */
  datatype ClassLoader = ClassLoader(base: seq<string>, tree: FileTree)
  {
    /** The base is a clean absolute path, and nothing is both a file and a directory. */
    predicate Valid()
    {
      AllPlain(base) && tree.files !! tree.dirs
    }
  }

  datatype XPClass = XPClass(name: string)

  datatype Error = ClassNotFoundException(name: string)

  /** A loaded class, or null for a failed load. */
  function Found(r: Result<XPClass, Error>): (o: Option<XPClass>)
    ensures o.Some? <==> r.Ok?
  {
    if r.Ok? then Some(r.value) else None
  }

  /** The entries of a class's file below the base: dots become directories, plus the class file extension. */
  function ClassFile(name: string): (segs: seq<string>)
    ensures |segs| >= 1
  {
    Split(Replace(name, '.', Separator) + ClassFileExt, Separator)
  }

  /** loadClass(): the class whose file exists below the base, or ClassNotFoundException. */
  function LoadClass(l: ClassLoader, name: string): (r: Result<XPClass, Error>)
    ensures r.Ok? ==> r.value.name == name
    ensures r.Err? ==> r.error == ClassNotFoundException(name)
  {
    match NormalizeFrom(l.base, ClassFile(name))
    case Some(p) =>
      if p in l.tree.files then Ok(XPClass(name)) else Err(ClassNotFoundException(name))
    case None => Err(ClassNotFoundException(name))
  }

  predicate IsAbsolute(uri: string)
  {
    uri != [] && uri[0] == Separator
  }

  /**
   * The normal form of a path: an absolute one from the root, a relative
   * one from the base.  Only a ".." entry can make a path climb above the
   * root.
   */
  function Resolve(l: ClassLoader, uri: string): (r: Option<seq<string>>)
    ensures r.None? ==> ".." in Split(uri, Separator)
  {
    NormalizeFrom(if IsAbsolute(uri) then [] else l.base, Split(uri, Separator))
  }

  /** The file name of a class file without the class file extension. */
  function Stem(tail: seq<string>): string
    requires |tail| >= 1 && EndsWith(tail[|tail| - 1], ClassFileExt)
  {
    var last := tail[|tail| - 1];
    last[..|last| - |ClassFileExt|]
  }

  /** The dotted name of a class file below the base: its directories and its file name without the extension. */
  function ClassNameOf(tail: seq<string>): string
    requires |tail| >= 1 && EndsWith(tail[|tail| - 1], ClassFileExt)
  {
    Join(tail[..|tail| - 1] + [Stem(tail)], '.')
  }

  /** When no entry holds a dot, the class file of the name read from a path is that path. */
  lemma ClassNameRoundTrip(tail: seq<string>)
    requires |tail| >= 1 && EndsWith(tail[|tail| - 1], ClassFileExt)
    requires PlainName(tail[..|tail| - 1], Stem(tail))
    ensures ClassFile(ClassNameOf(tail)) == tail
  {
    var pkg := tail[..|tail| - 1];
    ClassFileOf(pkg, Stem(tail));
    var last := tail[|tail| - 1];
    assert Stem(tail) + ClassFileExt == last;
    assert pkg + [last] == tail;
  }

  /** Whether a normalised path is a class file inside the base; a directory never is. */
  predicate IsClassFile(l: ClassLoader, p: seq<string>)
    ensures l.Valid() && IsClassFile(l, p) ==> p !in l.tree.dirs
  {
    |p| > |l.base| && p[..|l.base|] == l.base && p in l.tree.files && EndsWith(p[|p| - 1], ClassFileExt)
  }

  /** classFromUri(): the class whose file the path names, or null. */
  function ClassFromUri(l: ClassLoader, uri: string): Option<XPClass>
  {
    match Resolve(l, uri)
    case Some(p) =>
      if IsClassFile(l, p) then Found(LoadClass(l, ClassNameOf(p[|l.base|..]))) else None
    case None => None
  }

  /**
   * A class comes only from a path naming an existing class file inside the
   * base, never a directory, and it is the class loadClass() gives for its
   * own name.
   */
  lemma ClassFromUriLoads(l: ClassLoader, uri: string)
    requires l.Valid() && ClassFromUri(l, uri).Some?
    ensures Resolve(l, uri).Some? && IsClassFile(l, Resolve(l, uri).value) && Resolve(l, uri).value !in l.tree.dirs
    ensures LoadClass(l, ClassFromUri(l, uri).value.name) == Ok(ClassFromUri(l, uri).value)
  {
  }

  /** A class file named by plain pieces of a package and a simple name. */
  predicate PlainName(pkg: seq<string>, simple: string)
  {
    && AllPlain(pkg + [simple])
    && (forall k :: 0 <= k < |pkg| ==> Free(pkg[k], '.'))
    && Free(simple, '.')
  }

  /** The class file of a dotted name in a package: one directory per package piece, then the simple name with the extension. */
  lemma ClassFileOf(pkg: seq<string>, simple: string)
    requires PlainName(pkg, simple)
    ensures ClassFile(Join(pkg + [simple], '.')) == pkg + [simple + ClassFileExt]
  {
    var parts := pkg + [simple];
    var segs := pkg + [simple + ClassFileExt];
    assert forall k :: 0 <= k < |parts| ==> Free(parts[k], '.') by {
      forall k | 0 <= k < |parts| ensures Free(parts[k], '.') {
        if k < |pkg| { assert parts[k] == pkg[k]; } else { assert parts[k] == simple; }
      }
    }
    ReplaceJoin(parts, '.', Separator);
    JoinAppendLast(pkg, simple, ClassFileExt, Separator);
    PlainSegments(pkg, simple);
    SplitJoin(segs, Separator);
  }

  /** Where loadClass() looks for a class in a package: the package's directories below the base. */
  lemma LoadClassPath(l: ClassLoader, pkg: seq<string>, simple: string)
    requires l.Valid() && PlainName(pkg, simple)
    ensures LoadClass(l, Join(pkg + [simple], '.')) ==
      if l.base + pkg + [simple + ClassFileExt] in l.tree.files
      then Ok(XPClass(Join(pkg + [simple], '.')))
      else Err(ClassNotFoundException(Join(pkg + [simple], '.')))
  {
    var segs := pkg + [simple + ClassFileExt];
    ClassFileOf(pkg, simple);
    PlainSegments(pkg, simple);
    NormalizePlain(l.base, segs);
    assert l.base + segs == l.base + pkg + [simple + ClassFileExt];
  }

  /** Appending the class file extension to a plain simple name keeps every entry plain. */
  lemma PlainSegments(pkg: seq<string>, simple: string)
    requires AllPlain(pkg + [simple])
    ensures AllPlain(pkg + [simple + ClassFileExt])
  {
    var segs := pkg + [simple + ClassFileExt];
    forall k | 0 <= k < |segs| ensures Plain(segs[k]) {
      if k < |pkg| {
        assert segs[k] == (pkg + [simple])[k];
      } else {
        assert (pkg + [simple])[k] == simple;
        assert Free(ClassFileExt, Separator);
        assert |simple + ClassFileExt| > 2;
      }
    }
  }

  /** A relative path whose first entry is not empty resolves from the base. */
  lemma ResolveRelative(l: ClassLoader, xs: seq<string>)
    requires |xs| >= 1 && xs[0] != ""
    requires forall k :: 0 <= k < |xs| ==> Free(xs[k], Separator)
    ensures Resolve(l, Join(xs, Separator)) == NormalizeFrom(l.base, xs)
  {
    SplitJoin(xs, Separator);
    JoinHead(xs, Separator);
  }

  /** A path whose first entry is empty is absolute and resolves from the root. */
  lemma ResolveAbsolute(l: ClassLoader, xs: seq<string>)
    requires |xs| >= 2 && xs[0] == ""
    requires forall k :: 0 <= k < |xs| ==> Free(xs[k], Separator)
    ensures Resolve(l, Join(xs, Separator)) == NormalizeFrom([], xs)
  {
    SplitJoin(xs, Separator);
    assert Join(xs, Separator) == xs[0] + [Separator] + Join(xs[1..], Separator);
  }

  /**
   * A relative path to a class file in a package resolves to the class
   * loadClass() gives for the dotted name.
   */
  lemma RelativePathLoadsClass(l: ClassLoader, pkg: seq<string>, simple: string)
    requires l.Valid() && PlainName(pkg, simple)
    ensures ClassFromUri(l, Join(pkg + [simple + ClassFileExt], Separator)) == Found(LoadClass(l, Join(pkg + [simple], '.')))
  {
    var segs := pkg + [simple + ClassFileExt];
    PlainSegments(pkg, simple);
    assert segs[0] != "" by { assert Plain(segs[0]); }
    ResolveRelative(l, segs);
    NormalizePlain(l.base, segs);
    var p := l.base + segs;
    assert p[..|l.base|] == l.base;
    assert p[|l.base|..] == segs;
    var last := simple + ClassFileExt;
    assert p[|p| - 1] == last;
    assert last[|last| - |ClassFileExt|..] == ClassFileExt;
    assert last[..|last| - |ClassFileExt|] == simple;
    assert segs[..|segs| - 1] == pkg;
    assert ClassNameOf(segs) == Join(pkg + [simple], '.');
    LoadClassPath(l, pkg, simple);
    assert p == l.base + pkg + [simple + ClassFileExt];
  }

  /** A path made of entries without separators, read relative to the base. */
  predicate RelativeEntries(xs: seq<string>)
  {
    |xs| >= 1 && xs[0] != "" && forall k :: 0 <= k < |xs| ==> Free(xs[k], Separator)
  }

  /** A "." entry anywhere in a relative path does not change the class it names. */
  lemma DotEntry(l: ClassLoader, a: seq<string>, b: seq<string>)
    requires RelativeEntries(a + b)
    ensures ClassFromUri(l, Join(a + ["."] + b, Separator)) == ClassFromUri(l, Join(a + b, Separator))
  {
    Inserted(a, ".", b);
    ResolveRelative(l, a + b);
    ResolveRelative(l, a + ["."] + b);
    NormalizeSkip(l.base, a, ".", b);
  }

  /** An empty entry (a doubled separator) after the first entry of a relative path does not change the class it names. */
  lemma EmptyEntry(l: ClassLoader, a: seq<string>, b: seq<string>)
    requires a != [] && RelativeEntries(a + b)
    ensures ClassFromUri(l, Join(a + [""] + b, Separator)) == ClassFromUri(l, Join(a + b, Separator))
  {
    Inserted(a, "", b);
    ResolveRelative(l, a + b);
    ResolveRelative(l, a + [""] + b);
    NormalizeSkip(l.base, a, "", b);
  }

  /** A directory entry followed by ".." anywhere in a relative path does not change the class it names. */
  lemma UpLevelEntry(l: ClassLoader, a: seq<string>, dir: string, b: seq<string>)
    requires Plain(dir) && RelativeEntries(a + b)
    ensures ClassFromUri(l, Join(a + [dir, ".."] + b, Separator)) == ClassFromUri(l, Join(a + b, Separator))
  {
    var xs := a + [dir, ".."] + b;
    assert xs[0] != "" by {
      if a == [] { assert xs[0] == dir; } else { assert xs[0] == (a + b)[0]; }
    }
    forall k | 0 <= k < |xs| ensures Free(xs[k], Separator) {
      if k < |a| {
        assert xs[k] == (a + b)[k];
      } else if k == |a| {
        assert xs[k] == dir;
      } else if k == |a| + 1 {
        assert xs[k] == "..";
      } else {
        assert xs[k] == (a + b)[k - 2];
      }
    }
    ResolveRelative(l, a + b);
    ResolveRelative(l, xs);
    NormalizeUpLevel(l.base, a, dir, b);
  }

  /** Inserting a separator-free entry keeps a relative path relative. */
  lemma Inserted(a: seq<string>, x: string, b: seq<string>)
    requires RelativeEntries(a + b) && Free(x, Separator)
    requires a == [] ==> x != ""
    ensures RelativeEntries(a + [x] + b)
  {
    var xs := a + [x] + b;
    if a == [] { assert xs[0] == x; } else { assert xs[0] == (a + b)[0]; }
    forall k | 0 <= k < |xs| ensures Free(xs[k], Separator) {
      if k < |a| {
        assert xs[k] == (a + b)[k];
      } else if k == |a| {
        assert xs[k] == x;
      } else {
        assert xs[k] == (a + b)[k - 1];
      }
    }
  }

  /** The absolute path of an entry below the base names the same class as the entry relative to the base. */
  lemma AbsoluteUnderBase(l: ClassLoader, xs: seq<string>)
    requires l.Valid() && RelativeEntries(xs)
    ensures ClassFromUri(l, Join([""] + l.base + xs, Separator)) == ClassFromUri(l, Join(xs, Separator))
  {
    ResolveUnderBase(l, xs);
  }

  /** The absolute path of an entry below the base resolves to the same entry as the relative path. */
  lemma ResolveUnderBase(l: ClassLoader, xs: seq<string>)
    requires l.Valid() && RelativeEntries(xs)
    ensures Resolve(l, Join([""] + l.base + xs, Separator)) == Resolve(l, Join(xs, Separator))
  {
    AbsoluteEntriesFree(l.base, xs);
    ResolveAbsolute(l, [""] + l.base + xs);
    ResolveRelative(l, xs);
    NormalizeUnderBase(l.base, xs);
  }

  /** The entries of the absolute path through a plain base are free of the separator. */
  lemma AbsoluteEntriesFree(base: seq<string>, xs: seq<string>)
    requires AllPlain(base) && RelativeEntries(xs)
    ensures |[""] + base + xs| >= 2 && ([""] + base + xs)[0] == ""
    ensures forall k :: 0 <= k < |[""] + base + xs| ==> Free(([""] + base + xs)[k], Separator)
  {
    var abs := [""] + base + xs;
    forall k | 0 <= k < |abs| ensures Free(abs[k], Separator) {
      if k == 0 {
      } else if k <= |base| {
        assert abs[k] == base[k - 1];
        assert Plain(base[k - 1]);
      } else {
        assert abs[k] == xs[k - 1 - |base|];
      }
    }
  }

  /** Resolving the root, then a plain base, then more entries is resolving the entries from the base. */
  lemma NormalizeUnderBase(base: seq<string>, xs: seq<string>)
    requires AllPlain(base)
    ensures NormalizeFrom([], [""] + base + xs) == NormalizeFrom(base, xs)
  {
    assert [""] + base + xs == [] + [""] + (base + xs);
    NormalizeSkip([], [], "", base + xs);
    assert [] + (base + xs) == base + xs;
    NormalizeAppend([], base, xs);
    NormalizePlain([], base);
    assert [] + base == base;
  }

  /** Plain entries make a relative path. */
  lemma PlainRelative(xs: seq<string>)
    requires |xs| >= 1 && AllPlain(xs)
    ensures RelativeEntries(xs)
  {
    assert Plain(xs[0]);
    forall k | 0 <= k < |xs| ensures Free(xs[k], Separator) {
      assert Plain(xs[k]);
    }
  }

  /** A relative path of plain entries resolves to those entries below the base. */
  lemma ResolvePlain(l: ClassLoader, xs: seq<string>)
    requires |xs| >= 1 && AllPlain(xs)
    ensures Resolve(l, Join(xs, Separator)) == Some(l.base + xs)
  {
    PlainRelative(xs);
    ResolveRelative(l, xs);
    NormalizePlain(l.base, xs);
  }

  /** A relative path of plain entries that is not a file below the base names no class. */
  lemma MissingFile(l: ClassLoader, xs: seq<string>)
    requires |xs| >= 1 && AllPlain(xs) && l.base + xs !in l.tree.files
    ensures ClassFromUri(l, Join(xs, Separator)) == None
  {
    ResolvePlain(l, xs);
    assert !IsClassFile(l, l.base + xs);
  }

  /** A relative path of plain entries whose file name lacks the class file extension names no class. */
  lemma NotClassFile(l: ClassLoader, xs: seq<string>)
    requires |xs| >= 1 && AllPlain(xs) && !EndsWith(xs[|xs| - 1], ClassFileExt)
    ensures ClassFromUri(l, Join(xs, Separator)) == None
  {
    ResolvePlain(l, xs);
    NotClassFileAppended(l, xs);
  }

  /** The last entry of a path below the base is the last entry of its tail. */
  lemma NotClassFileAppended(l: ClassLoader, xs: seq<string>)
    requires |xs| >= 1 && !EndsWith(xs[|xs| - 1], ClassFileExt)
    ensures !IsClassFile(l, l.base + xs)
  {
    var p := l.base + xs;
    assert p[|p| - 1] == xs[|xs| - 1];
  }

  /** A relative path of plain entries naming a directory below the base names no class. */
  lemma DirectoryEntry(l: ClassLoader, xs: seq<string>)
    requires l.Valid() && |xs| >= 1 && AllPlain(xs) && l.base + xs in l.tree.dirs
    ensures ClassFromUri(l, Join(xs, Separator)) == None
  {
    MissingFile(l, xs);
  }

  /** An absolute path of plain entries that does not lead through the base names no class. */
  lemma OutsideBase(l: ClassLoader, xs: seq<string>)
    requires |xs| >= 1 && AllPlain(xs)
    requires !(|xs| > |l.base| && xs[..|l.base|] == l.base)
    ensures ClassFromUri(l, Join([""] + xs, Separator)) == None
  {
    ResolveRoot(l, xs);
    assert !IsClassFile(l, xs);
  }

  /** An absolute path of plain entries resolves to those entries from the root. */
  lemma ResolveRoot(l: ClassLoader, xs: seq<string>)
    requires |xs| >= 1 && AllPlain(xs)
    ensures Resolve(l, Join([""] + xs, Separator)) == Some(xs)
  {
    var abs := [""] + xs;
    PlainRelative(xs);
    forall k | 0 <= k < |abs| ensures Free(abs[k], Separator) {
      if k > 0 {
        assert abs[k] == xs[k - 1];
      }
    }
    ResolveAbsolute(l, abs);
    NormalizeSkip([], [], "", xs);
    assert [] + [""] + xs == abs && [] + xs == xs;
    assert NormalizeFrom([], abs) == NormalizeFrom([], xs);
    NormalizePlain([], xs);
  }

  // ---------------------------------------------------------------------
  // The test's fixture: classes CLT1 and net.xp_framework.unittest.reflection.CLT2
  // and a text file CLT1.txt in the directory fsclt of the temporary directory.

  const Base: seq<string> := ["tmp", "fsclt"]
  /** The base folder's URI, with its trailing separator. */
  const BaseUri: string := "/tmp/fsclt/"
  const Package: seq<string> := ["net", "xp_framework", "unittest", "reflection"]

  function Fixture(): (l: ClassLoader)
    ensures l.Valid()
  {
    assert AllPlain(Base) by {
      assert Plain(Base[0]) && Plain(Base[1]);
    }
    ClassLoader(Base, FileTree(
      {["tmp", "fsclt", "CLT1.class.php"],
       ["tmp", "fsclt", "net", "xp_framework", "unittest", "reflection", "CLT2.class.php"],
       ["tmp", "fsclt", "CLT1.txt"]},
      {[], ["tmp"], ["tmp", "fsclt"], ["tmp", "fsclt", "net"], ["tmp", "fsclt", "net", "xp_framework"],
       ["tmp", "fsclt", "net", "xp_framework", "unittest"],
       ["tmp", "fsclt", "net", "xp_framework", "unittest", "reflection"]}))
  }

  /** newType() writes a class's source to the very file loadClass() looks for. */
  lemma NewTypeWritesClassFile(name: string)
    ensures Split(NewType(name).path + ClassFileExt, Separator) == ClassFile(name)
  {
    if Free(name, '.') {
      ReplaceFree(name, '.', Separator);
    }
  }

  lemma BaseJoined()
    ensures Join([""] + Base, Separator) == "/tmp/fsclt"
  {
    assert [""] + Base == ["", "tmp", "fsclt"];
    assert Join(["fsclt"], Separator) == "fsclt";
    assert Join(["tmp", "fsclt"], Separator) == "tmp/fsclt";
  }

  lemma BaseUriTrimmed()
    ensures RTrim(BaseUri, Separator) == "/tmp/fsclt"
  {
    assert BaseUri[..|BaseUri| - 1] == "/tmp/fsclt";
  }

  /** compose() with the base folder first. */
  lemma TrimmedUnderBase(args: seq<Option<string>>, rest: seq<string>)
    requires |args| == |rest| + 1 && args[0] == Some(BaseUri)
    requires forall k :: 0 <= k < |rest| ==> args[k + 1] == Some(rest[k]) && rest[k] != [] && rest[k][|rest[k]| - 1] != Separator
    ensures Trimmed(args) == ["/tmp/fsclt"] + rest
  {
    BaseUriTrimmed();
    var t := Trimmed(args);
    forall k | 0 <= k < |t| ensures t[k] == (["/tmp/fsclt"] + rest)[k] {
      if k > 0 {
        assert args[k] == Some(rest[k - 1]);
      }
    }
  }

  lemma Clt1File()
    ensures "CLT1" + ClassFileExt == "CLT1.class.php"
  {
  }

  lemma Clt2File()
    ensures "CLT2" + ClassFileExt == "CLT2.class.php"
  {
  }

  /** The trimmed form of a path under the base folder's URI is its absolute path. */
  lemma ComposeUnderBase(rest: seq<string>)
    requires |rest| >= 1
    ensures Join(["/tmp/fsclt"] + rest, Separator) == Join([""] + Base + rest, Separator)
  {
    JoinConcat(["/tmp/fsclt"], rest, Separator);
    JoinConcat([""] + Base, rest, Separator);
    BaseJoined();
  }

  /** CLT1 loads from any loader whose base holds its class file. */
  lemma Clt1Loads(l: ClassLoader)
    requires l.Valid() && l.base + ["CLT1.class.php"] in l.tree.files
    ensures LoadClass(l, "CLT1") == Ok(XPClass("CLT1"))
    ensures ClassFromUri(l, "CLT1.class.php") == Some(XPClass("CLT1"))
  {
    Clt1Plain();
    Clt1LoadClass(l);
    RelativePathLoadsClass(l, [], "CLT1");
    assert [] + ["CLT1"] == ["CLT1"];
    Clt1File();
    assert [] + ["CLT1" + ClassFileExt] == ["CLT1.class.php"];
  }

  lemma Clt1Plain()
    ensures PlainName([], "CLT1")
  {
    assert [] + ["CLT1"] == ["CLT1"];
  }

  lemma Clt1LoadClass(l: ClassLoader)
    requires l.Valid() && l.base + ["CLT1.class.php"] in l.tree.files
    ensures LoadClass(l, "CLT1") == Ok(XPClass("CLT1"))
  {
    Clt1Plain();
    LoadClassPath(l, [], "CLT1");
    Clt1File();
    assert [] + ["CLT1"] == ["CLT1"];
    assert l.base + [] + ["CLT1" + ClassFileExt] == l.base + ["CLT1.class.php"];
  }

  lemma LoadsClt1()
    ensures LoadClass(Fixture(), "CLT1") == Ok(XPClass("CLT1"))
    ensures ClassFromUri(Fixture(), "CLT1.class.php") == Some(XPClass("CLT1"))
  {
    var l := Fixture();
    assert l.base + ["CLT1.class.php"] == ["tmp", "fsclt", "CLT1.class.php"];
    Clt1Loads(l);
  }

  /** The dotted name net.xp_framework.unittest.reflection.CLT2. */
  const Clt2: string := Join(Package + ["CLT2"], '.')

  /** CLT2 loads from any loader whose base holds its class file in the package's directory. */
  lemma Clt2Loads(l: ClassLoader)
    requires l.Valid() && l.base + Package + ["CLT2.class.php"] in l.tree.files
    ensures LoadClass(l, Clt2) == Ok(XPClass(Clt2))
    ensures ClassFromUri(l, Join(Package + ["CLT2.class.php"], Separator)) == Some(XPClass(Clt2))
  {
    assert PlainName(Package, "CLT2") by {
      var parts := Package + ["CLT2"];
      assert parts == ["net", "xp_framework", "unittest", "reflection", "CLT2"];
      assert Plain(parts[0]) && Plain(parts[1]) && Plain(parts[2]) && Plain(parts[3]) && Plain(parts[4]);
      assert Free(Package[0], '.') && Free(Package[1], '.') && Free(Package[2], '.') && Free(Package[3], '.');
    }
    LoadClassPath(l, Package, "CLT2");
    RelativePathLoadsClass(l, Package, "CLT2");
    Clt2File();
    assert Package + ["CLT2" + ClassFileExt] == Package + ["CLT2.class.php"];
    assert l.base + Package + ["CLT2" + ClassFileExt] == l.base + Package + ["CLT2.class.php"];
  }

  lemma LoadsClt2()
    ensures LoadClass(Fixture(), Clt2) == Ok(XPClass(Clt2))
    ensures ClassFromUri(Fixture(), Join(Package + ["CLT2.class.php"], Separator)) == Some(XPClass(Clt2))
  {
    var l := Fixture();
    assert l.base + Package + ["CLT2.class.php"] == ["tmp", "fsclt", "net", "xp_framework", "unittest", "reflection", "CLT2.class.php"];
    Clt2Loads(l);
  }

  /** from_a_relative_path_in_root */
  lemma FromRelativePathInRoot()
    ensures ClassFromUri(Fixture(), "CLT1.class.php") == Found(LoadClass(Fixture(), "CLT1")) == Some(XPClass("CLT1"))
  {
    LoadsClt1();
  }

  /** from_a_relative_path */
  lemma FromRelativePath(args: seq<Option<string>>)
    requires args == [Some("net"), Some("xp_framework"), Some("unittest"), Some("reflection"), Some("CLT2.class.php")]
    ensures ClassFromUri(Fixture(), Compose(args))
         == Found(LoadClass(Fixture(), Clt2)) == Some(XPClass(Clt2))
  {
    var args := args;
    assert Trimmed(args) == Package + ["CLT2.class.php"];
    LoadsClt2();
  }

  /** from_a_relative_path_with_dot */
  lemma FromRelativePathWithDot(args: seq<Option<string>>)
    requires args == [Some("."), Some("CLT1.class.php")]
    ensures ClassFromUri(Fixture(), Compose(args)) == Some(XPClass("CLT1"))
  {
    assert Trimmed(args) == [] + ["."] + ["CLT1.class.php"];
    DotEntry(Fixture(), [], ["CLT1.class.php"]);
    assert [] + ["CLT1.class.php"] == ["CLT1.class.php"];
    LoadsClt1();
  }

  /** from_a_relative_path_with_dot_dot */
  /** In net/xp_framework/../../CLT1.class.php each ".." cancels the directory before it, for any loader. */
  lemma DotDotCancels(l: ClassLoader)
    ensures ClassFromUri(l, Join(["net", "xp_framework", "..", "..", "CLT1.class.php"], Separator))
         == ClassFromUri(l, Join(["CLT1.class.php"], Separator))
  {
    var a := ["net"];
    var b := ["..", "CLT1.class.php"];
    assert a + ["xp_framework", ".."] + b == ["net", "xp_framework", "..", "..", "CLT1.class.php"];
    assert RelativeEntries(a + b) by {
      assert a + b == ["net", "..", "CLT1.class.php"];
      assert Free("net", Separator) && Free("..", Separator) && Free("CLT1.class.php", Separator);
    }
    UpLevelEntry(l, a, "xp_framework", b);
    Clt1EntriesRelative();
    assert a + b == [] + ["net", ".."] + ["CLT1.class.php"];
    assert [] + ["CLT1.class.php"] == ["CLT1.class.php"];
    UpLevelEntry(l, [], "net", ["CLT1.class.php"]);
  }

  lemma FromRelativePathWithDotDot(args: seq<Option<string>>)
    requires args == [Some("net"), Some("xp_framework"), Some(".."), Some(".."), Some("CLT1.class.php")]
    ensures ClassFromUri(Fixture(), Compose(args)) == Some(XPClass("CLT1"))
  {
    assert Trimmed(args) == ["net", "xp_framework", "..", "..", "CLT1.class.php"];
    DotDotCancels(Fixture());
    assert Join(["CLT1.class.php"], Separator) == "CLT1.class.php";
    LoadsClt1();
  }

  /** from_a_relative_path_with_multiple_directory_separators */
  lemma FromRelativePathWithMultipleSeparators(args: seq<Option<string>>)
    requires args == [Some("."), None, Some("CLT1.class.php")]
    ensures ClassFromUri(Fixture(), Compose(args)) == Some(XPClass("CLT1"))
  {
    assert Trimmed(args) == ["."] + [""] + ["CLT1.class.php"];
    DotAndEmptyEntries(Fixture());
    assert Join(["CLT1.class.php"], Separator) == "CLT1.class.php";
    LoadsClt1();
  }

  /** In ./ /CLT1.class.php the "." and the empty entry both drop out, for any loader. */
  lemma DotAndEmptyEntries(l: ClassLoader)
    ensures ClassFromUri(l, Join(["."] + [""] + ["CLT1.class.php"], Separator))
         == ClassFromUri(l, Join(["CLT1.class.php"], Separator))
  {
    Clt1EntriesRelative();
    assert RelativeEntries(["."] + ["CLT1.class.php"]) by {
      assert ["."] + ["CLT1.class.php"] == [] + ["."] + ["CLT1.class.php"];
      Inserted([], ".", ["CLT1.class.php"]);
    }
    EmptyEntry(l, ["."], ["CLT1.class.php"]);
    assert ["."] + ["CLT1.class.php"] == [] + ["."] + ["CLT1.class.php"];
    DotEntry(l, [], ["CLT1.class.php"]);
    assert [] + ["CLT1.class.php"] == ["CLT1.class.php"];
  }

  /** from_an_absolute_path_in_root */
  lemma FromAbsolutePathInRoot(args: seq<Option<string>>)
    requires args == [Some(BaseUri), Some("CLT1.class.php")]
    ensures ClassFromUri(Fixture(), Compose(args)) == Some(XPClass("CLT1"))
  {
    var rest := ["CLT1.class.php"];
    assert Compose(args) == Join([""] + Base + rest, Separator) by {
      TrimmedUnderBase(args, rest);
      ComposeUnderBase(rest);
    }
    Clt1EntriesRelative();
    AbsoluteUnderBase(Fixture(), rest);
    LoadsClt1();
  }

  /** The entry of CLT1's class file below the base. */
  lemma Clt1EntriesRelative()
    ensures RelativeEntries(["CLT1.class.php"])
  {
    assert Plain("CLT1.class.php");
    PlainRelative(["CLT1.class.php"]);
  }

  /** The entries of the path to CLT2's class file below the base. */
  lemma Clt2EntriesRelative()
    ensures RelativeEntries(Package + ["CLT2.class.php"])
  {
    assert Package + ["CLT2.class.php"] == ["net", "xp_framework", "unittest", "reflection", "CLT2.class.php"];
  }

  /** from_an_absolute_path */
  lemma FromAbsolutePath(args: seq<Option<string>>)
    requires args == [Some(BaseUri), Some("net"), Some("xp_framework"), Some("unittest"), Some("reflection"), Some("CLT2.class.php")]
    ensures ClassFromUri(Fixture(), Compose(args))
         == Some(XPClass(Clt2))
  {
    var rest := Package + ["CLT2.class.php"];
    TrimmedUnderBase(args, rest);
    ComposeUnderBase(rest);
    Clt2EntriesRelative();
    AbsoluteUnderBase(Fixture(), rest);
    LoadsClt2();
  }

  /** from_an_absolute_path_not_inside_cl_base */
  lemma FromAbsolutePathNotInsideBase(args: seq<Option<string>>)
    requires args == [None, Some("CLT1.class.php")]
    ensures ClassFromUri(Fixture(), Compose(args)) == None
  {
    var xs := ["CLT1.class.php"];
    assert Compose(args) == Join([""] + xs, Separator) by {
      assert Trimmed(args) == [""] + xs;
    }
    assert AllPlain(xs) by {
      assert Plain(xs[0]);
    }
    OutsideBase(Fixture(), xs);
  }

  /** from_non_class_file */
  lemma FromNonClassFile()
    ensures ClassFromUri(Fixture(), "CLT1.txt") == None
  {
    var xs := ["CLT1.txt"];
    assert AllPlain(xs) by {
      assert Plain(xs[0]);
    }
    assert Join(xs, Separator) == "CLT1.txt";
    NotClassFile(Fixture(), xs);
  }

  /** from_directory */
  lemma FromDirectory(args: seq<Option<string>>)
    requires args == [Some(BaseUri), Some("net"), Some("xp_framework")]
    ensures ClassFromUri(Fixture(), Compose(args)) == None
  {
    var l := Fixture();
    var rest := ["net", "xp_framework"];
    var uri := Compose(args);
    assert uri == Join([""] + Base + rest, Separator) by {
      TrimmedUnderBase(args, rest);
      ComposeUnderBase(rest);
    }
    PackageHeadPlain();
    assert Base + rest in l.tree.dirs by {
      assert Base + rest == ["tmp", "fsclt", "net", "xp_framework"];
    }
    AbsoluteDirectory(l, rest);
  }

  /** The directories net/xp_framework are plain entries, as the path to CLT2's file shows. */
  lemma PackageHeadPlain()
    ensures AllPlain(["net", "xp_framework"])
  {
    Clt2EntriesRelative();
    var p := Package + ["CLT2.class.php"];
    assert p[0] == "net" && p[1] == "xp_framework";
    assert Free(p[0], Separator) && Free(p[1], Separator);
  }

  /** The absolute path of a directory below the base names no class. */
  lemma AbsoluteDirectory(l: ClassLoader, xs: seq<string>)
    requires l.Valid() && |xs| >= 1 && AllPlain(xs) && l.base + xs in l.tree.dirs
    ensures ClassFromUri(l, Join([""] + l.base + xs, Separator)) == None
  {
    PlainRelative(xs);
    AbsoluteUnderBase(l, xs);
    DirectoryEntry(l, xs);
  }

  /** from_non_existant_file */
  lemma FromNonExistentFile(args: seq<Option<string>>)
    requires args == [Some(BaseUri), Some("NonExistant.File")]
    ensures ClassFromUri(Fixture(), Compose(args)) == None
  {
    var l := Fixture();
    var rest := ["NonExistant.File"];
    var uri := Compose(args);
    assert uri == Join([""] + Base + rest, Separator) by {
      TrimmedUnderBase(args, rest);
      ComposeUnderBase(rest);
    }
    assert AllPlain(rest) by {
      assert Plain(rest[0]);
    }
    assert Base + rest !in l.tree.files by {
      assert Base + rest == ["tmp", "fsclt", "NonExistant.File"];
    }
    AbsoluteMissingFile(l, rest);
  }

  /** The absolute path of a missing file below the base names no class. */
  lemma AbsoluteMissingFile(l: ClassLoader, xs: seq<string>)
    requires l.Valid() && |xs| >= 1 && AllPlain(xs) && l.base + xs !in l.tree.files
    ensures ClassFromUri(l, Join([""] + l.base + xs, Separator)) == None
  {
    PlainRelative(xs);
    AbsoluteUnderBase(l, xs);
    MissingFile(l, xs);
  }
}
