/**
 * The res:// stream wrapper (lang.ResourceProvider): it translates a
 * res:// URI into a resource name and opens, closes and stats the resource
 * through the class loader.  Resources are read-only.
 *
 * The class loader is a map from resource names to their contents:
 * providesResource() is membership, and a resource stream's size() is the
 * length of its contents.
 */
module ResourceProvider {
  import opened Wrappers

  datatype Error =
    | IllegalArgumentException(message: string)
    | MethodNotImplementedException(message: string)
    | ResourceNotFound(name: string)
    | NullResource

  /** The resources the class loader provides, by name. */
  datatype Loader = Loader(resources: map<string, seq<bv8>>)

  /** A resource stream obtained from the loader. */
  datatype Stream = Stream(name: string, content: seq<bv8>, isOpen: bool)

  const ResPrefix: string := "res://"

  // ---------------------------------------------------------------------
  // translatePath(): sscanf($path, 'res://%s', $file)

  /** The character that ends a C string, where sscanf stops reading. */
  const Nul: char := 0 as char

  predicate NoNul(s: string)
  {
    forall i :: 0 <= i < |s| ==> s[i] != Nul
  }

  /** What sscanf reads of a string: everything before the first NUL. */
  function CString(s: string): (r: string)
    ensures |r| <= |s| && r == s[..|r|] && NoNul(r)
    ensures |r| == |s| || s[|r|] == Nul
    decreases |s|
  {
    if s == [] || s[0] == Nul then []
    else
      var t := CString(s[1..]);
      assert s[1..][..|t|] == s[1..|t| + 1];
      [s[0]] + t
  }

  /** The characters sscanf's %s treats as white space. */
  predicate IsSpace(c: char)
  {
    c == ' ' || c == '\t' || c == '\n' || c == '\r' || c == 11 as char || c == 12 as char
  }

  predicate AllSpace(s: string)
  {
    forall i :: 0 <= i < |s| ==> IsSpace(s[i])
  }

  predicate NoSpace(s: string)
  {
    forall i :: 0 <= i < |s| ==> !IsSpace(s[i])
  }

  /** What is left once the leading white space is skipped. */
  function SkipSpace(s: string): (r: string)
    ensures |r| <= |s| && r == s[|s| - |r|..]
    ensures AllSpace(s[..|s| - |r|])
    ensures r == [] || !IsSpace(r[0])
    decreases |s|
  {
    if s != [] && IsSpace(s[0]) then
      var r := SkipSpace(s[1..]);
      assert s[1..][|s| - 1 - |r|..] == s[|s| - |r|..];
      assert forall i :: 1 <= i < |s| - |r| ==> s[i] == s[1..][..|s| - 1 - |r|][i - 1];
      r
    else
      s
  }

  /** The longest prefix without white space. */
  function Token(s: string): (r: string)
    ensures |r| <= |s| && r == s[..|r|] && NoSpace(r)
    ensures |r| == |s| || IsSpace(s[|r|])
  {
    if s == [] || IsSpace(s[0]) then []
    else
      var t := Token(s[1..]);
      assert s[1..][..|t|] == s[1..|t| + 1];
      [s[0]] + t
  }

  /** The string starts with res://. */
  predicate HasResPrefix(path: string)
    ensures HasResPrefix(path) <==> ResPrefix <= path
  {
    |path| >= |ResPrefix| && path[..|ResPrefix|] == ResPrefix
  }

  /**
   * The resource name in a res:// URI: the first word after the prefix, in
   * the part of the path before any NUL.  A path without the prefix, or
   * with only white space after it, is rejected with
   * IllegalArgumentException quoting the path.
   */
  function TranslatePath(path: string): (r: Result<string, Error>)
    ensures r.Ok? <==> HasResPrefix(CString(path)) && !AllSpace(CString(path)[|ResPrefix|..])
    ensures r.Ok? ==> r.value != [] && NoSpace(r.value) && NoNul(r.value)
    ensures r.Err? ==> r.error == IllegalArgumentException("Invalid resource expression: \"" + path + "\"")
  {
    var c := CString(path);
    var rest := if HasResPrefix(c) then c[|ResPrefix|..] else [];
    var w := SkipSpace(rest);
    assert w == [] <==> AllSpace(rest) by {
      assert rest[..|rest|] == rest;
      if w != [] {
        assert rest[|rest| - |w|] == w[0];
      }
    }
    if HasResPrefix(c) && w != [] then
      var t := Token(w);
      assert NoNul(t) by {
        forall i | 0 <= i < |t| ensures t[i] != Nul {
          assert t[i] == w[i] == rest[|rest| - |w| + i] == c[|ResPrefix| + |rest| - |w| + i];
        }
      }
      Ok(t)
    else
      Err(IllegalArgumentException("Invalid resource expression: \"" + path + "\""))
  }

  /** A string without NUL is read whole up to the NUL that follows it. */
  lemma {:induction false} CStringOf(a: string, b: string)
    requires NoNul(a)
    ensures CString(a + b) == a + CString(b)
    decreases |a|
  {
    if a != [] {
      assert (a + b)[1..] == a[1..] + b;
      CStringOf(a[1..], b);
    } else {
      assert a + b == b;
    }
  }

  lemma {:induction false} SkipSpaceOf(ws: string, t: string)
    requires AllSpace(ws)
    requires t == [] || !IsSpace(t[0])
    ensures SkipSpace(ws + t) == t
    decreases |ws|
  {
    if ws != [] {
      assert (ws + t)[1..] == ws[1..] + t;
      SkipSpaceOf(ws[1..], t);
    } else {
      assert ws + t == t;
    }
  }

  lemma {:induction false} TokenOf(word: string, rest: string)
    requires NoSpace(word)
    requires rest == [] || IsSpace(rest[0])
    ensures Token(word + rest) == word
    decreases |word|
  {
    if word != [] {
      assert (word + rest)[1..] == word[1..] + rest;
      TokenOf(word[1..], rest);
    } else {
      assert word + rest == rest;
    }
  }

  lemma HeadHasNoNul(ws: string, word: string)
    requires AllSpace(ws) && NoNul(word)
    ensures NoNul(ResPrefix + ws + word)
  {
    var head := ResPrefix + ws + word;
    forall i | 0 <= i < |head| ensures head[i] != Nul {
      if i < |ResPrefix| {
        assert head[i] == ResPrefix[i];
      } else if i < |ResPrefix| + |ws| {
        assert head[i] == ws[i - |ResPrefix|];
      } else {
        assert head[i] == word[i - |ResPrefix| - |ws|];
      }
    }
  }

  /**
   * Every resource name comes out of the URI that names it: white space
   * after the prefix is skipped and the name ends at the next white space
   * or NUL.
   */
  lemma TranslateNamesWord(ws: string, word: string, rest: string)
    requires AllSpace(ws) && word != [] && NoSpace(word) && NoNul(word)
    requires rest == [] || IsSpace(rest[0]) || rest[0] == Nul
    ensures TranslatePath(ResPrefix + ws + word + rest) == Ok(word)
  {
    var head := ResPrefix + ws + word;
    HeadHasNoNul(ws, word);
    CStringOf(head, rest);
    var tail := CString(rest);
    assert tail == [] || IsSpace(tail[0]);
    var c := CString(head + rest);
    assert c == ResPrefix + (ws + (word + tail));
    assert c[..|ResPrefix|] == ResPrefix && c[|ResPrefix|..] == ws + (word + tail);
    SkipSpaceOf(ws, word + tail);
    TokenOf(word, tail);
  }

  /** The round trip: a resource name written after the prefix translates back to itself. */
  lemma TranslateInverse(name: string)
    requires name != [] && NoSpace(name) && NoNul(name)
    ensures TranslatePath(ResPrefix + name) == Ok(name)
  {
    TranslateNamesWord([], name, []);
    assert ResPrefix + [] + name + [] == ResPrefix + name;
  }

  /**
   * A NUL ends the path: what follows it plays no part, so a path
   * translates, and to the same name, exactly when its part before the
   * NUL does.
   */
  lemma NulEndsPath(head: string, tail: string)
    requires NoNul(head)
    ensures TranslatePath(head + [Nul] + tail).Ok? == TranslatePath(head).Ok?
    ensures TranslatePath(head).Ok? ==> TranslatePath(head + [Nul] + tail) == TranslatePath(head)
  {
    CStringOf(head, [Nul] + tail);
    CStringOf(head, []);
    assert head + [Nul] + tail == head + ([Nul] + tail);
    assert head + [] == head;
  }

  lemma PrefixHasNoNul()
    ensures NoNul(ResPrefix)
  {
    assert ResPrefix == ['r', 'e', 's', ':', '/', '/'];
  }

  /** The prefix with nothing after it names no resource. */
  lemma PrefixAlone()
    ensures TranslatePath(ResPrefix) == Err(IllegalArgumentException("Invalid resource expression: \"" + ResPrefix + "\""))
  {
    assert ResPrefix[|ResPrefix|..] == [];
    PrefixHasNoNul();
    CStringOf(ResPrefix, []);
    assert ResPrefix + [] == ResPrefix;
  }

  /** The prefix followed by a NUL names no resource either, whatever comes after the NUL. */
  lemma PrefixThenNul(tail: string)
    ensures TranslatePath(ResPrefix + [Nul] + tail).Err?
  {
    PrefixAlone();
    PrefixHasNoNul();
    var p := ResPrefix;
    NulEndsPath(p, tail);
  }

  // ---------------------------------------------------------------------
  // stat records

  /** The fields of a stat() record. */
  datatype Stat = Stat(
    dev: int, ino: int, mode: int, nlink: int, uid: int, gid: int,
    rdev: int, size: int, atime: int, mtime: int, ctime: int)

  /** Octal 0444: readable by owner, group and others. */
  const ReadOnlyMode: nat := 4 * 64 + 4 * 8 + 4

  /** The stat record of a resource of the given size. */
  function StatRecord(size: nat): (s: Stat)
    ensures s.mode == ReadOnlyMode && s.uid == 1 && s.gid == 1 && s.size == size
    ensures s.atime == 0 && s.mtime == 0 && s.ctime == 0
    ensures s.dev == 0 && s.ino == 0 && s.nlink == 0 && s.rdev == 0
  {
    Stat(0, 0, ReadOnlyMode, 0, 1, 1, 0, size, 0, 0, 0)
  }

  /**
   * url_stat(): the stat record of the resource a URI names; none when the
   * loader does not provide it; an invalid URI raises.
   */
  function UrlStat(loader: Loader, path: string): (r: Result<Option<Stat>, Error>)
    ensures r.Err? <==> TranslatePath(path).Err?
    ensures r.Err? ==> r.error == TranslatePath(path).error
    ensures r.Ok? ==> (r.value.None? <==> TranslatePath(path).value !in loader.resources)
    ensures r.Ok? && r.value.Some? ==> r.value.value.size == |loader.resources[TranslatePath(path).value]|
    ensures r.Ok? && r.value.Some? ==> r.value.value.mode == ReadOnlyMode
  {
    match TranslatePath(path)
    case Err(e) => Err(e)
    case Ok(name) =>
      if name !in loader.resources then Ok(None)
      else Ok(Some(StatRecord(|loader.resources[name]|)))
  }

  // ---------------------------------------------------------------------
  // the stream wrapper object

  class Provider {
    /** The open resource; None before stream_open() and after stream_close(). */
    var resource: Option<Stream>
    const loader: Loader

    constructor (loader: Loader)
      ensures resource == None && this.loader == loader
    {
      resource := None;
      this.loader := loader;
    }

    /**
     * stream_open(): only the modes r and rb are accepted, anything else
     * gives false without looking at the path; otherwise the resource the
     * path names is opened for reading and held.
     */
    method StreamOpen(path: string, mode: string) returns (r: Result<bool, Error>)
      modifies this
      ensures mode != "r" && mode != "rb" ==> r == Ok(false) && resource == old(resource)
      ensures (mode == "r" || mode == "rb") && TranslatePath(path).Err? ==>
        r == Err(TranslatePath(path).error) && resource == old(resource)
      ensures (mode == "r" || mode == "rb") && TranslatePath(path).Ok? ==>
        var name := TranslatePath(path).value;
        if name in loader.resources then
          r == Ok(true) && resource == Some(Stream(name, loader.resources[name], true))
        else
          r == Err(ResourceNotFound(name)) && resource == old(resource)
    {
      if mode != "r" && mode != "rb" {
        return Ok(false);
      }
      var translated := TranslatePath(path);
      if translated.Err? {
        return Err(translated.error);
      }
      var name := translated.value;
      if name !in loader.resources {
        return Err(ResourceNotFound(name));
      }
      resource := Some(Stream(name, loader.resources[name], true));
      r := Ok(true);
    }

    /** stream_close(): closes the held resource, which is returned, and lets go of it. */
    method StreamClose() returns (r: Result<Stream, Error>)
      modifies this
      ensures resource == None
      ensures old(resource).None? ==> r == Err(NullResource)
      ensures old(resource).Some? ==> r == Ok(old(resource).value.(isOpen := false))
    {
      if resource.None? {
        return Err(NullResource);
      }
      r := Ok(resource.value.(isOpen := false));
      resource := None;
    }

    /** stream_write(): resources are read-only, so writing always raises. */
    method StreamWrite(data: seq<bv8>) returns (r: Result<nat, Error>)
      ensures r.Err? && r.error == MethodNotImplementedException("Not writeable.")
    {
      r := Err(MethodNotImplementedException("Not writeable."));
    }

    /** stream_stat(): the stat record of the held resource. */
    function StreamStat(): (r: Result<Stat, Error>)
      reads this
      ensures r.Ok? <==> resource.Some?
      ensures r.Ok? ==> r.value == StatRecord(|resource.value.content|)
    {
      match resource
      case None => Err(NullResource)
      case Some(s) => Ok(StatRecord(|s.content|))
    }
  }

  /**
   * fstat() on a stream opened through a URI reports what stat() on the URI
   * reports, and opening fails exactly when stat() has no record.
   */
  method OpenThenStat(loader: Loader, path: string) returns (outcome: Result<bool, Error>, stat: Result<Stat, Error>)
    ensures outcome == Ok(true) <==> UrlStat(loader, path).Ok? && UrlStat(loader, path).value.Some?
    ensures outcome == Ok(true) ==> stat.Ok? && stat.value == UrlStat(loader, path).value.value
  {
    var provider := new Provider(loader);
    outcome := provider.StreamOpen(path, "rb");
    stat := provider.StreamStat();
  }

  /** Closing a stream opened through a URI closes that resource and leaves nothing to stat. */
  method OpenThenClose(loader: Loader, name: string) returns (closed: Result<Stream, Error>, stat: Result<Stat, Error>)
    requires name != [] && NoSpace(name) && NoNul(name) && name in loader.resources
    ensures closed == Ok(Stream(name, loader.resources[name], false))
    ensures stat == Err(NullResource)
  {
    var provider := new Provider(loader);
    TranslateInverse(name);
    var outcome := provider.StreamOpen(ResPrefix + name, "r");
    closed := provider.StreamClose();
    stat := provider.StreamStat();
  }

  /** A mode that would write is refused before the path is looked at, even an invalid one. */
  method WriteModeRefused(loader: Loader, path: string) returns (outcome: Result<bool, Error>)
    ensures outcome == Ok(false)
  {
    var provider := new Provider(loader);
    outcome := provider.StreamOpen(path, "w");
  }
}
