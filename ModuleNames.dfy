/**
  `generate_module`: turn the URL or path of a script into a made-up module
  name. The scheme and host are dropped, the file extension is dropped,
  leading directories that carry no meaning (`js`, `javascript`, version
  numbers, `_`- or `.`-prefixed names, commit hashes, and the empty piece
  before a leading `/`) are dropped, and a `-<hash>` suffix on the file
  name is dropped. What is left is joined with `/`.
 */
module ModuleNames {
  import opened Results
  import opened Text

  const UnknownModule: string := "<unknown module>"

  predicate IsDigit(c: char) { '0' <= c <= '9' }

  predicate IsHexDigit(c: char) { IsDigit(c) || 'a' <= c <= 'f' }

  /** A short (7), MD5 (32) or SHA-1 (40) hexadecimal digest. */
  predicate IsHash(s: string)
  {
    (|s| == 7 || |s| == 32 || |s| == 40) && forall i :: 0 <= i < |s| ==> IsHexDigit(s[i])
  }

  /** Dot-separated numbers: `1`, `1.0`, `10.2.3`. */
  predicate IsDottedNumber(t: string)
  {
    && |t| > 0
    && IsDigit(t[0]) && IsDigit(t[|t| - 1])
    && (forall i :: 0 <= i < |t| ==> IsDigit(t[i]) || t[i] == '.')
    && (forall i :: 0 <= i < |t| - 1 && t[i] == '.' ==> IsDigit(t[i + 1]))
  }

  /** A version number with an optional `v`: `1.0`, `v1`, `v1.0.0`, `3`. */
  predicate IsVersion(s: string)
  {
    IsDottedNumber(s) || (|s| > 0 && s[0] == 'v' && IsDottedNumber(s[1..]))
  }

  /** A directory name that says nothing about the module. */
  predicate IsNoiseDirectory(seg: string)
  {
    || seg == "js" || seg == "javascript"
    || IsVersion(seg)
    || (|seg| > 0 && (seg[0] == '_' || seg[0] == '.'))
    || IsHash(seg)
  }

  /** A leading path piece that is dropped: empty (from a leading `/`) or noise. */
  predicate IsSkippable(seg: string)
  {
    seg == "" || IsNoiseDirectory(seg)
  }

  predicate IsSchemeChar(c: char)
  {
    'a' <= c <= 'z' || 'A' <= c <= 'Z' || IsDigit(c) || c == '+' || c == '-' || c == '.'
  }

  predicate IsScheme(s: string)
  {
    |s| > 0 && forall i :: 0 <= i < |s| ==> IsSchemeChar(s[i])
  }

  /** The path of a URL: after `<scheme>://<host>`; a string that is not such a URL is already a path. */
  function UrlPath(s: string): (path: string)
    ensures |path| <= |s|
  {
    match IndexOf(s, ':')
    case None => s
    case Some(i) =>
      if IsScheme(s[..i]) && StartsWith(s[i..], "://") then
        var rest := s[i + 3..];
        match IndexOf(rest, '/')
        case None => ""
        case Some(j) => rest[j..]
      else s
  }

  /** A file name without its extension; leading dots do not start an extension. */
  function StripExtension(seg: string): string
  {
    match LastIndexOf(seg, '.')
    case None => seg
    case Some(i) =>
      if exists k :: 0 <= k < i && seg[k] != '.' then seg[..i] else seg
  }

  predicate HasHashSuffix(seg: string, n: nat)
  {
    |seg| > n && seg[|seg| - n - 1] == '-' && IsHash(seg[|seg| - n..])
  }

  /** A file name without a trailing `-<hash>`. */
  function StripHashSuffix(seg: string): string
  {
    if HasHashSuffix(seg, 40) then seg[..|seg| - 41]
    else if HasHashSuffix(seg, 32) then seg[..|seg| - 33]
    else if HasHashSuffix(seg, 7) then seg[..|seg| - 8]
    else seg
  }

  /** The module-name part of a file name. */
  function FileStem(seg: string): string
  {
    StripHashSuffix(StripExtension(seg))
  }

  /**
    The path pieces from the first meaningful one on; the last piece (the
    file) is always kept.
   */
  function DropLeadingNoise(segs: seq<string>): (kept: seq<string>)
    requires |segs| >= 1
    ensures 1 <= |kept| <= |segs|
    decreases |segs|
  {
    if |segs| > 1 && IsSkippable(segs[0]) then DropLeadingNoise(segs[1..]) else segs
  }

  /**
    What is kept is a suffix of the pieces; every piece dropped before it
    is skippable, and the first piece kept is not, unless it is the file.
   */
  lemma {:induction false} DropLeadingNoiseSpec(segs: seq<string>)
    requires |segs| >= 1
    ensures var kept := DropLeadingNoise(segs);
      && kept == segs[|segs| - |kept|..]
      && (forall k :: 0 <= k < |segs| - |kept| ==> IsSkippable(segs[k]))
      && (|kept| == 1 || !IsSkippable(kept[0]))
    decreases |segs|
  {
    if |segs| > 1 && IsSkippable(segs[0]) {
      var rest := segs[1..];
      DropLeadingNoiseSpec(rest);
      var kept := DropLeadingNoise(rest);
      assert rest[|rest| - |kept|..] == segs[|segs| - |kept|..];
      forall k | 0 <= k < |segs| - |kept|
        ensures IsSkippable(segs[k])
      {
        if k > 0 {
          assert segs[k] == rest[k - 1];
        }
      }
    }
  }

  /** The module name of a path. */
  function ModuleOfPath(path: string): (name: string)
    ensures name != ""
  {
    NameOfKept(DropLeadingNoise(Split(path, '/')))
  }

  /** The kept pieces joined with `/`, the file by its stem. */
  function NameOfKept(kept: seq<string>): (name: string)
    requires |kept| >= 1
    ensures name != ""
  {
    var name := Join(kept[..|kept| - 1] + [FileStem(kept[|kept| - 1])], '/');
    if name == "" then UnknownModule else name
  }

  /** `generate_module`: `<unknown module>` for no URL, otherwise the module name of the URL's path. */
  function GenerateModule(src: Option<string>): (name: string)
    ensures name != ""
    ensures src.None? ==> name == UnknownModule
  {
    match src
    case None => UnknownModule
    case Some(s) => if s == "" then UnknownModule else ModuleOfPath(UrlPath(s))
  }

  // ---------------------------------------------------------------------
  // Properties

  /** The scheme and host of an absolute URL are dropped; its path is kept whole. */
  lemma UrlPathOfUrl(scheme: string, host: string, path: string)
    requires IsScheme(scheme)
    requires '/' !in host
    requires |path| > 0 && path[0] == '/'
    ensures UrlPath(scheme + "://" + host + path) == path
  {
    var rest := host + path;
    var s := scheme + ("://" + rest);
    assert s == scheme + "://" + host + path;
    var i := |scheme|;
    assert ':' !in scheme by {
      forall k | 0 <= k < |scheme| ensures scheme[k] != ':' { assert IsSchemeChar(scheme[k]); }
    }
    assert s[..i] == scheme;
    assert s[i..] == "://" + rest;
    IndexOfIs(s, ':', i);
    assert StartsWith(s[i..], "://");
    assert s[i + 3..] == rest;
    assert rest[..|host|] == host;
    IndexOfIs(rest, '/', |host|);
    assert rest[|host|..] == path;
  }

  /** A string without a colon is a path already. */
  lemma UrlPathOfPath(path: string)
    requires ':' !in path
    ensures UrlPath(path) == path
  {
  }

  /** Splitting `head + "/" + tail` gives `head` and then the pieces of `tail`. */
  lemma SplitHead(head: string, tail: string)
    requires '/' !in head
    ensures Split(head + "/" + tail, '/') == [head] + Split(tail, '/')
  {
    SplitAppend(head, '/', tail);
    SplitNoSep(head, '/');
  }

  /** A skippable leading directory does not change the module name. */
  lemma {:induction false} LeadingSegmentIgnored(head: string, tail: string)
    requires '/' !in head && IsSkippable(head)
    ensures ModuleOfPath(head + "/" + tail) == ModuleOfPath(tail)
  {
    SplitHead(head, tail);
    var segs := Split(tail, '/');
    SkippableHeadDropped(head, segs);
    assert DropLeadingNoise(Split(head + "/" + tail, '/')) == DropLeadingNoise(segs);
  }

  /** A skippable piece in front of at least one more is dropped. */
  lemma SkippableHeadDropped(head: string, segs: seq<string>)
    requires IsSkippable(head) && |segs| >= 1
    ensures DropLeadingNoise([head] + segs) == DropLeadingNoise(segs)
  {
    assert ([head] + segs)[1..] == segs;
  }

  /** A path that is a single file name is named by its stem. */
  lemma SingleSegment(file: string)
    requires '/' !in file
    ensures ModuleOfPath(file) == if FileStem(file) == "" then UnknownModule else FileStem(file)
  {
    SplitNoSep(file, '/');
  }

  /** A meaningful directory in front of a file is kept in front of its stem. */
  lemma DirectoryKept(dir: string, file: string)
    requires '/' !in dir && '/' !in file
    requires !IsSkippable(dir)
    ensures ModuleOfPath(dir + "/" + file) == dir + "/" + FileStem(file)
  {
    SplitHead(dir, file);
    SplitNoSep(file, '/');
    var segs := [dir, file];
    assert Split(dir + "/" + file, '/') == segs;
    assert DropLeadingNoise(segs) == segs;
    assert Join([dir, FileStem(file)], '/') == dir + "/" + FileStem(file);
  }

  /** The extension after the last dot of a file name is dropped. */
  lemma StripExtensionOf(base: string, ext: string)
    requires '.' !in ext
    requires |base| > 0 && base[0] != '.'
    ensures StripExtension(base + "." + ext) == base
  {
    var seg := base + "." + ext;
    assert seg[|base|] == '.';
    assert seg[|base| + 1..] == ext;
    assert LastIndexOf(seg, '.') == Some(|base|);
    assert seg[0] != '.';
    assert seg[..|base|] == base;
  }

  /** A trailing `-<hash>` is dropped whatever its length among 7, 32 and 40. */
  lemma StripHashSuffixOf(base: string, hash: string)
    requires IsHash(hash)
    ensures StripHashSuffix(base + "-" + hash) == base
  {
    var seg := base + "-" + hash;
    var h := |hash|;
    assert seg[|seg| - h - 1] == '-';
    assert seg[|seg| - h..] == hash;
    assert HasHashSuffix(seg, h);
    forall n: nat | n != h && (n == 7 || n == 32 || n == 40)
      ensures !HasHashSuffix(seg, n)
    {
      if n < h {
        assert seg[|seg| - n - 1] == hash[h - n - 1];
      } else if |seg| > n {
        assert seg[|seg| - n..][n - h - 1] == '-';
      }
    }
    assert seg[..|seg| - h - 1] == base;
  }

  /** A file name without a dash keeps its name. */
  lemma StripHashSuffixNone(seg: string)
    requires '-' !in seg
    ensures StripHashSuffix(seg) == seg
  {
    if |seg| > 7 { assert seg[|seg| - 8] in seg; }
    if |seg| > 32 { assert seg[|seg| - 33] in seg; }
    if |seg| > 40 { assert seg[|seg| - 41] in seg; }
  }

  /** A root-relative path and the same path climbing with `../` get the same module name. */
  lemma RelativePathsAgree(tail: string)
    requires ':' !in tail
    ensures GenerateModule(Some("/" + tail)) == GenerateModule(Some("../" + tail))
  {
    RootedPath(tail);
    ClimbingPath(tail);
  }

  /** A path climbing with `../` is named by what follows it. */
  lemma ClimbingPath(tail: string)
    requires ':' !in tail
    ensures GenerateModule(Some("../" + tail)) == ModuleOfPath(tail)
  {
    assert "../" + tail == ".." + "/" + tail;
    assert ':' !in "../" + tail;
    UrlPathOfPath("../" + tail);
    LeadingSegmentIgnored("..", tail);
  }

  /** Any `<scheme>://<host>` in front of a root-relative path leaves its module name unchanged. */
  lemma HostIgnored(scheme: string, host: string, path: string)
    requires IsScheme(scheme) && '/' !in host
    requires |path| > 0 && path[0] == '/' && ':' !in path
    ensures GenerateModule(Some(scheme + "://" + host + path)) == GenerateModule(Some(path))
  {
    UrlPathOfPath(path);
    UrlPathOfUrl(scheme, host, path);
  }

  // ---------------------------------------------------------------------
  // The cases of `GenerateModuleTest.test_simple`

  const ExampleHost: string := "http://example.com"

  lemma ExampleHostIgnored(path: string)
    requires |path| > 0 && path[0] == '/' && ':' !in path
    ensures GenerateModule(Some(ExampleHost + path)) == GenerateModule(Some(path))
  {
    assert ExampleHost == "http" + "://" + "example.com";
    assert IsScheme("http");
    assert '/' !in "example.com";
    HostIgnored("http", "example.com", path);
  }

  /** Any run of skippable leading directories leaves the module name of the rest unchanged. */
  lemma {:induction false} NoiseDirectoriesDropped(noise: seq<string>, rest: string)
    requires forall k :: 0 <= k < |noise| ==> '/' !in noise[k] && IsSkippable(noise[k])
    ensures ModuleOfPath(Join(noise + [rest], '/')) == ModuleOfPath(rest)
    decreases |noise|
  {
    if |noise| > 0 {
      var tail := noise[1..] + [rest];
      NoiseDirectoriesDropped(noise[1..], rest);
      HeadThenRest(noise, rest);
      JoinCons(noise[0], tail, '/');
      LeadingSegmentIgnored(noise[0], Join(tail, '/'));
    }
  }

  lemma FooBarPieces(path: string)
    requires path == "foo/bar.js"
    ensures path == "foo" + "/" + "bar.js"
    ensures "bar.js" == "bar" + "." + "js"
    ensures !IsSkippable("foo")
    ensures "foo/bar" == "foo" + "/" + "bar"
  {
  }

  /** `foo/bar.js` names the module `foo/bar`. */
  lemma FooBar(path: string)
    requires path == "foo/bar.js"
    ensures ModuleOfPath(path) == "foo/bar"
  {
    FooBarPieces(path);
    DirectoryKept("foo", "bar.js");
    StripExtensionOf("bar", "js");
    StripHashSuffixNone("bar");
  }

  /** A root-relative path in front of which `http://example.com` is written. */
  lemma ExampleUrl(url: string, path: string, tail: string)
    requires path == "/" + tail && ':' !in tail
    requires url == ExampleHost + path
    ensures GenerateModule(Some(url)) == ModuleOfPath(tail)
  {
    assert path == "" + "/" + tail;
    assert ':' !in path;
    ExampleHostIgnored(path);
    UrlPathOfPath(path);
    LeadingSegmentIgnored("", tail);
  }

  /** `foo.js` names the module `foo`. */
  lemma FooFile(file: string)
    requires file == "foo.js"
    ensures ModuleOfPath(file) == "foo"
  {
    assert file == "foo" + "." + "js";
    assert '/' !in file;
    StripExtensionOf("foo", "js");
    StripHashSuffixNone("foo");
    SingleSegment(file);
  }

  lemma FooExamplePieces(url: string)
    requires url == "http://example.com/foo.js"
    ensures url == ExampleHost + ("/" + "foo.js") && ':' !in "foo.js"
  {
  }

  /** `http://example.com/foo.js` names the module `foo`; no URL names the unknown module. */
  lemma GenerateModuleFooExample(url: string)
    requires url == "http://example.com/foo.js"
    ensures GenerateModule(None) == UnknownModule
    ensures GenerateModule(Some(url)) == "foo"
  {
    FooExamplePieces(url);
    ExampleUrl(url, "/" + "foo.js", "foo.js");
    FooFile("foo.js");
  }

  lemma FooBarExamplePieces(url: string)
    requires url == "http://example.com/foo/bar.js"
    ensures url == ExampleHost + ("/" + "foo/bar.js") && ':' !in "foo/bar.js"
  {
  }

  /** `http://example.com/foo/bar.js` names the module `foo/bar`. */
  lemma GenerateModuleFooBarExample(url: string)
    requires url == "http://example.com/foo/bar.js"
    ensures GenerateModule(Some(url)) == "foo/bar"
  {
    FooBarExamplePieces(url);
    ExampleUrl(url, "/" + "foo/bar.js", "foo/bar.js");
    FooBar("foo/bar.js");
  }

  lemma NoisePieces(noise: string)
    requires noise in {"js", "javascript", "1.0", "v1", "v1.0.0", "_baz", "abcdef0",
                       "92cd589eca8235e7b373bf5ae94ebf898e3b949c", "7d6d00eae0ceccdc7ee689659585d95f"}
    ensures '/' !in noise && ':' !in noise && IsSkippable(noise)
  {
    if noise in {"js", "javascript", "_baz"} {
      NamedNoise(noise);
    } else if noise in {"1.0", "v1", "v1.0.0"} {
      VersionNoise(noise);
    } else {
      HashNoise(noise);
    }
  }

  lemma NamedNoise(noise: string)
    requires noise in {"js", "javascript", "_baz"}
    ensures '/' !in noise && ':' !in noise && IsSkippable(noise)
  {
  }

  lemma VersionNoise(noise: string)
    requires noise in {"1.0", "v1", "v1.0.0"}
    ensures '/' !in noise && ':' !in noise && IsSkippable(noise)
  {
  }

  lemma HashNoise(noise: string)
    requires noise in {"abcdef0", "92cd589eca8235e7b373bf5ae94ebf898e3b949c", "7d6d00eae0ceccdc7ee689659585d95f"}
    ensures '/' !in noise && ':' !in noise && IsSkippable(noise)
  {
    if noise == "abcdef0" {
      ShortHashLiteral(noise);
    } else if noise == "92cd589eca8235e7b373bf5ae94ebf898e3b949c" {
      Sha1HashLiteral(noise);
    } else {
      HashLiteral(noise);
    }
    HashIsOneSegment(noise);
  }

  lemma ShortHashLiteral(hash: string)
    requires hash == "abcdef0"
    ensures IsHash(hash)
  {
  }

  lemma Sha1HashLiteral(hash: string)
    requires hash == "92cd589eca8235e7b373bf5ae94ebf898e3b949c"
    ensures IsHash(hash)
  {
  }

  lemma HashIsOneSegment(h: string)
    requires IsHash(h)
    ensures '/' !in h && ':' !in h && '-' !in h && '.' !in h
  {
    forall i | 0 <= i < |h| ensures h[i] != '/' && h[i] != ':' && h[i] != '-' && h[i] != '.' {
      assert IsHexDigit(h[i]);
    }
  }

  /** One noise directory between the host and `foo/bar.js` is dropped. */
  lemma GenerateModuleNoiseExample(url: string, noise: string)
    requires noise in {"js", "javascript", "1.0", "v1", "v1.0.0", "_baz", "abcdef0",
                       "92cd589eca8235e7b373bf5ae94ebf898e3b949c", "7d6d00eae0ceccdc7ee689659585d95f"}
    requires url == ExampleHost + "/" + noise + "/foo/bar.js"
    ensures GenerateModule(Some(url)) == "foo/bar"
  {
    NoisePieces(noise);
    NoiseBeforeFooBar(url, noise);
  }

  /** Any skippable directory between the host and `foo/bar.js` is dropped. */
  lemma NoiseBeforeFooBar(url: string, noise: string)
    requires '/' !in noise && ':' !in noise && IsSkippable(noise)
    requires url == ExampleHost + "/" + noise + "/foo/bar.js"
    ensures GenerateModule(Some(url)) == "foo/bar"
  {
    var tail := noise + "/" + "foo/bar.js";
    assert url == ExampleHost + ("/" + tail);
    assert ':' !in "foo/bar.js";
    ExampleUrl(url, "/" + tail, tail);
    LeadingSegmentIgnored(noise, "foo/bar.js");
    FooBar("foo/bar.js");
  }

  /** Three version directories in a row are all dropped. */
  lemma GenerateModuleNestedVersionsExample(url: string)
    requires url == "http://example.com/1/2/3/foo/bar.js"
    ensures GenerateModule(Some(url)) == "foo/bar"
  {
    var tail3 := "3" + "/" + "foo/bar.js";
    var tail2 := "2" + "/" + tail3;
    var tail1 := "1" + "/" + tail2;
    NestedVersionsPieces(url, tail1, tail2, tail3);
    ExampleUrl(url, "/" + tail1, tail1);
    LeadingSegmentIgnored("1", tail2);
    LeadingSegmentIgnored("2", tail3);
    LeadingSegmentIgnored("3", "foo/bar.js");
    FooBar("foo/bar.js");
  }

  lemma NestedVersionsPieces(url: string, tail1: string, tail2: string, tail3: string)
    requires url == "http://example.com/1/2/3/foo/bar.js"
    requires tail3 == "3" + "/" + "foo/bar.js"
    requires tail2 == "2" + "/" + tail3
    requires tail1 == "1" + "/" + tail2
    ensures url == ExampleHost + ("/" + tail1) && ':' !in tail1
    ensures IsSkippable("1") && IsSkippable("2") && IsSkippable("3")
  {
    assert tail1 == "1/2/3/foo/bar.js";
  }

  /** A root-relative path is named by what follows its leading `/`. */
  lemma RootedPath(tail: string)
    requires ':' !in tail
    ensures GenerateModule(Some("/" + tail)) == ModuleOfPath(tail)
  {
    assert "/" + tail == "" + "/" + tail;
    assert ':' !in "/" + tail;
    UrlPathOfPath("/" + tail);
    LeadingSegmentIgnored("", tail);
  }

  lemma RootedPieces(path: string)
    requires path == "/foo/bar.js"
    ensures path == "/" + "foo/bar.js" && ':' !in "foo/bar.js"
  {
  }

  /** The root-relative case `/foo/bar.js`. */
  lemma GenerateModuleRootedExample(path: string)
    requires path == "/foo/bar.js"
    ensures GenerateModule(Some(path)) == "foo/bar"
  {
    RootedPieces(path);
    RootedPath("foo/bar.js");
    FooBar("foo/bar.js");
  }

  lemma ClimbingPieces(path: string, inner: string)
    requires path == "../../foo/bar.js" && inner == "../foo/bar.js"
    ensures path == "../" + inner && ':' !in inner
    ensures inner == ".." + "/" + "foo/bar.js" && IsSkippable("..")
  {
  }

  /** The case `../../foo/bar.js`: each `..` is dropped like a leading `/`. */
  lemma GenerateModuleClimbingExample(path: string)
    requires path == "../../foo/bar.js"
    ensures GenerateModule(Some(path)) == "foo/bar"
  {
    var inner := "../foo/bar.js";
    ClimbingPieces(path, inner);
    RelativePathsAgree(inner);
    RootedPath(inner);
    LeadingSegmentIgnored("..", "foo/bar.js");
    FooBar("foo/bar.js");
  }

  lemma HashLiteral(hash: string)
    requires hash == "7d6d00eae0ceccdc7ee689659585d95f"
    ensures IsHash(hash)
  {
  }

  /** A `-<hash>` suffix and an extension after a kept directory leave `<dir>/<stem>`. */
  lemma HashedFileModule(dir: string, stem: string, hash: string, ext: string)
    requires ':' !in dir && ':' !in stem && ':' !in ext
    requires '/' !in dir && '/' !in stem && '/' !in ext && '.' !in ext
    requires !IsSkippable(dir) && |stem| > 0 && stem[0] != '.'
    requires IsHash(hash)
    ensures GenerateModule(Some("/" + dir + "/" + stem + "-" + hash + "." + ext)) == dir + "/" + stem
  {
    HashIsOneSegment(hash);
    var base := stem + "-" + hash;
    var file := base + "." + ext;
    var rest := dir + "/" + file;
    assert "/" + dir + "/" + stem + "-" + hash + "." + ext == "/" + rest;
    assert ':' !in rest && '/' !in file;
    RootedPath(rest);
    DirectoryKept(dir, file);
    StripExtensionOf(base, ext);
    StripHashSuffixOf(stem, hash);
  }

  lemma FooBarJsSegments(dir: string, stem: string, ext: string)
    requires dir == "foo" && stem == "bar" && ext == "js"
    ensures ':' !in dir && ':' !in stem && ':' !in ext
    ensures '/' !in dir && '/' !in stem && '/' !in ext && '.' !in ext
    ensures !IsSkippable(dir) && |stem| > 0 && stem[0] != '.'
    ensures dir + "/" + stem == "foo/bar"
  {
  }

  /**
    The case `/foo/bar-7d6d00eae0ceccdc7ee689659585d95f.js`: the `-<md5>`
    suffix is dropped. The path is given by its pieces.
   */
  lemma GenerateModuleHashSuffixExample(path: string, dir: string, stem: string, hash: string, ext: string)
    requires dir == "foo" && stem == "bar" && ext == "js"
    requires hash == "7d6d00eae0ceccdc7ee689659585d95f"
    requires path == "/" + dir + "/" + stem + "-" + hash + "." + ext
    ensures GenerateModule(Some(path)) == "foo/bar"
  {
    HashLiteral(hash);
    FooBarJsSegments(dir, stem, ext);
    HashedFileModule(dir, stem, hash, ext);
  }
}
