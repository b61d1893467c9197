/**
  Ruby's `File.basename(path)` and `File.basename(path, '.*')` on a POSIX
  system, as pure functions on strings. Only '/' separates directories.

  `File.basename(path)` drops trailing separators, then keeps what follows
  the last remaining separator; an empty path stays empty and a path made
  only of separators becomes "/". With the suffix '.*' it also removes the
  last extension: the part from the last '.' on, where the leading dots of
  the name never start an extension (".bashrc" stays ".bashrc").
*/
module RubyFile {
  import opened Wrappers

  /** True when every character of s is a directory separator. */
  predicate AllSeparators(s: string) {
    forall i :: 0 <= i < |s| ==> s[i] == '/'
  }

  /** The length of s[..n] once its trailing separators are dropped. */
  function ChompedLength(s: string, n: nat): (m: nat)
    requires n <= |s|
    ensures m <= n
    ensures forall i :: m <= i < n ==> s[i] == '/'
    ensures m > 0 ==> s[m - 1] != '/'
  {
    if n > 0 && s[n - 1] == '/' then ChompedLength(s, n - 1) else n
  }

  /** Where the last segment of s[..n] starts: just after its last separator, or 0. */
  function SegmentStart(s: string, n: nat): (start: nat)
    requires n <= |s|
    ensures start <= n
    ensures forall i :: start <= i < n ==> s[i] != '/'
    ensures start > 0 ==> s[start - 1] == '/'
  {
    if n == 0 || s[n - 1] == '/' then n else SegmentStart(s, n - 1)
  }

  /** `File.basename(path)`. */
  function Basename(path: string): (r: string)
    ensures path == [] ==> r == []
    ensures path != [] && AllSeparators(path) ==> r == "/"
    ensures !AllSeparators(path) ==> r != [] && '/' !in r
  {
    if path == [] then []
    else
      var end := ChompedLength(path, |path|);
      if end == 0 then
        "/"
      else
        assert !AllSeparators(path) by {
          assert path[end - 1] != '/';
        }
        path[SegmentStart(path, end)..end]
  }

  /** The number of dots that open s[k..], counted from position k. */
  function SkipDots(s: string, k: nat): (n: nat)
    requires k <= |s|
    ensures k <= n <= |s|
    ensures forall i :: k <= i < n ==> s[i] == '.'
    ensures n < |s| ==> s[n] != '.'
    decreases |s| - k
  {
    if k < |s| && s[k] == '.' then SkipDots(s, k + 1) else k
  }

  /** The number of dots that open s. */
  function LeadingDots(s: string): (n: nat)
    ensures n <= |s|
  {
    SkipDots(s, 0)
  }

  /** The position of the last '.' of s[lo..n]; None when it has none. */
  function LastDotBefore(s: string, lo: nat, n: nat): (r: Option<nat>)
    requires n <= |s|
    ensures r.Some? ==> lo <= r.value < n && s[r.value] == '.'
    ensures r.Some? ==> forall i :: r.value < i < n ==> s[i] != '.'
    ensures r.None? ==> forall i :: lo <= i < n ==> s[i] != '.'
  {
    if n <= lo then None
    else if s[n - 1] == '.' then Some(n - 1)
    else LastDotBefore(s, lo, n - 1)
  }

  /** A base name without its last extension (the '.*' suffix of Ruby). */
  function StripExtension(name: string): (r: string)
    ensures r <= name
    ensures r != name ==> LeadingDots(name) <= |r| && name[|r|] == '.'
    ensures name != [] ==> r != []
  {
    match LastDotBefore(name, LeadingDots(name), |name|)
    case None => name
    case Some(dot) => name[..dot]
  }

  /**
    The name is kept whole exactly when no dot follows its leading dots;
    otherwise what is removed starts at the last dot.
  */
  lemma StripExtensionDots(name: string)
    ensures StripExtension(name) == name <==> forall i :: LeadingDots(name) <= i < |name| ==> name[i] != '.'
    ensures var r := StripExtension(name);
      r != name ==> forall i :: |r| < i < |name| ==> name[i] != '.'
  {
  }

  /** `File.basename(path, '.*')`. */
  function BasenameWithoutExt(path: string): (r: string)
    ensures !AllSeparators(path) ==> r != [] && '/' !in r
  {
    StripExtension(Basename(path))
  }

  /** A file name placed after a directory (or after nothing) is its own base name. */
  lemma BasenameOfJoin(dir: string, name: string)
    requires dir == [] || dir[|dir| - 1] == '/'
    requires name != [] && '/' !in name
    ensures Basename(dir + name) == name
  {
    var s := dir + name;
    assert s[|s| - 1] == name[|name| - 1];
    var end := ChompedLength(s, |s|);
    assert end == |s|;
    var start := SegmentStart(s, end);
    assert start == |dir| by {
      assert dir != [] ==> s[|dir| - 1] == '/';
      assert forall i :: |dir| <= i < |s| ==> s[i] == name[i - |dir|];
    }
    assert s[start..end] == name;
  }

  /** Trailing separators after the name are dropped: `File.basename("a/b/")` is "b". */
  lemma BasenameOfJoinTrailing(dir: string, name: string, seps: string)
    requires dir == [] || dir[|dir| - 1] == '/'
    requires name != [] && '/' !in name
    requires AllSeparators(seps)
    ensures Basename(dir + name + seps) == name
  {
    var s := dir + name + seps;
    var cut := |dir| + |name|;
    assert s[cut - 1] == name[|name| - 1];
    var end := ChompedLength(s, |s|);
    assert end == cut by {
      assert forall i :: cut <= i < |s| ==> s[i] == seps[i - cut];
    }
    var start := SegmentStart(s, end);
    assert start == |dir| by {
      assert dir != [] ==> s[|dir| - 1] == '/';
      assert forall i :: |dir| <= i < cut ==> s[i] == name[i - |dir|];
    }
    assert s[start..end] == name;
  }

  /** A path that is not all separators is a directory part, its base name, and trailing separators. */
  lemma BasenameParts(path: string) returns (head: string, seps: string)
    requires !AllSeparators(path)
    ensures path == head + Basename(path) + seps
    ensures head == [] || head[|head| - 1] == '/'
    ensures AllSeparators(seps)
  {
    var end := ChompedLength(path, |path|);
    var start := SegmentStart(path, end);
    head, seps := path[..start], path[end..];
    assert Basename(path) == path[start..end];
    assert path == head + path[start..end] + seps;
    assert forall i :: 0 <= i < |seps| ==> seps[i] == path[end + i];
  }

  /** A directory put in front of a path that is not all separators leaves its base name unchanged. */
  lemma BasenameUnderDir(dir: string, path: string)
    requires dir != [] && dir[|dir| - 1] == '/'
    requires !AllSeparators(path)
    ensures Basename(dir + path) == Basename(path)
  {
    var name := Basename(path);
    var head, seps := BasenameParts(path);
    var outer := dir + head;
    assert outer[|outer| - 1] == '/' by {
      if head == [] {
        assert outer == dir;
      } else {
        assert outer[|outer| - 1] == head[|head| - 1];
      }
    }
    assert dir + (head + name + seps) == outer + name + seps;
    BasenameOfJoinTrailing(outer, name, seps);
  }

  /** A non-empty, separator-free name is its own base name. */
  lemma BasenameOfName(name: string)
    requires name != [] && '/' !in name
    ensures Basename(name) == name
  {
  }

  /** Taking the base name twice changes nothing. */
  lemma BasenameIdempotent(path: string)
    ensures Basename(Basename(path)) == Basename(path)
  {
  }

  /** The extension removed is exactly the text after the last dot. */
  lemma StripExtensionOf(name: string, ext: string)
    requires exists j :: 0 <= j < |name| && name[j] != '.'
    requires '.' !in ext
    ensures StripExtension(name + "." + ext) == name
  {
    var s := name + "." + ext;
    var j :| 0 <= j < |name| && name[j] != '.';
    assert s[j] != '.';
    StripExtensionDots(s);
    var r := StripExtension(s);
    assert s[|name|] == '.';
    assert |r| == |name|;
    assert r == s[..|name|] == name;
  }

  /** The file `name.ext` has no separator when neither part has one. */
  lemma NoSeparatorInFile(name: string, ext: string)
    requires '/' !in name && '/' !in ext
    ensures '/' !in name + "." + ext
  {
  }

  /** `File.basename(name.ext, '.*')` is name. */
  lemma BasenameWithoutExtOfName(name: string, ext: string)
    requires '/' !in name && '/' !in ext && '.' !in ext
    requires exists j :: 0 <= j < |name| && name[j] != '.'
    ensures BasenameWithoutExt(name + "." + ext) == name
  {
    NoSeparatorInFile(name, ext);
    BasenameOfName(name + "." + ext);
    StripExtensionOf(name, ext);
  }

  /** `File.basename(dir/name.ext, '.*')` is name. */
  lemma BasenameWithoutExtOfJoin(dir: string, name: string, ext: string)
    requires dir != [] && dir[|dir| - 1] == '/'
    requires '/' !in name && '/' !in ext && '.' !in ext
    requires exists j :: 0 <= j < |name| && name[j] != '.'
    ensures BasenameWithoutExt(dir + name + "." + ext) == name
  {
    var file := name + "." + ext;
    NoSeparatorInFile(name, ext);
    assert dir + name + "." + ext == dir + file;
    BasenameOfJoin(dir, file);
    StripExtensionOf(name, ext);
  }

  /** A path never equals its own extension-less base name with a prefix put before it and an extension after it. */
  lemma NotOwnRenaming(path: string, prefix: string, suffix: string)
    requires prefix != [] && prefix[0] != '.' && '/' !in prefix
    requires suffix != [] && suffix[0] == '.' && '/' !in suffix && '.' !in suffix[1..]
    ensures path != prefix + BasenameWithoutExt(path) + suffix
  {
    var b := BasenameWithoutExt(path);
    var stem, ext := prefix + b, suffix[1..];
    if path == stem + suffix {
      assert !AllSeparators(path) by { assert path[0] == prefix[0]; }
      assert '/' !in stem;
      assert stem[0] != '.';
      assert '/' !in ext;
      assert stem + suffix == stem + "." + ext by {
        assert suffix == "." + ext;
      }
      BasenameWithoutExtOfName(stem, ext);
    }
  }
}
