/** Path.GetFileName over the two directory separators '\' and '/'. */
module FilePath {

  predicate IsSeparator(c: char) {
    c == '\\' || c == '/'
  }

  predicate HasNoSeparator(s: string) {
    forall i :: 0 <= i < |s| ==> !IsSeparator(s[i])
  }

  /** `suffix` is what remains of `s` after dropping some prefix. */
  predicate IsSuffix(suffix: string, s: string) {
    |suffix| <= |s| && s[|s| - |suffix|..] == suffix
  }

  /** The final component of `path`: the longest separator-free suffix. */
  function FileName(path: string): (name: string)
    ensures IsSuffix(name, path)
    ensures HasNoSeparator(name)
    ensures |name| < |path| ==> IsSeparator(path[|path| - |name| - 1])
  {
    if path == [] then []
    else if IsSeparator(path[|path| - 1]) then []
    else
      var f := FileName(path[..|path| - 1]);
      ExtendName(path, f);
      f + [path[|path| - 1]]
  }

  /** One step of FileName: a separator-free suffix of all of `path` but its
      last character, starting after a separator (or at the start), stays one
      when that last character, not a separator, is appended. */
  lemma ExtendName(path: string, f: string)
    requires path != [] && !IsSeparator(path[|path| - 1])
    requires IsSuffix(f, path[..|path| - 1])
    requires HasNoSeparator(f)
    requires |f| < |path| - 1 ==> IsSeparator(path[|path| - 1 - |f| - 1])
    ensures var name := f + [path[|path| - 1]];
      && IsSuffix(name, path)
      && HasNoSeparator(name)
      && (|name| < |path| ==> IsSeparator(path[|path| - |name| - 1]))
  {
    var init, last := path[..|path| - 1], path[|path| - 1];
    var name := f + [last];
    assert path == init + [last];
    assert path[|path| - |name|..] == init[|init| - |f|..] + [last];
    forall i | 0 <= i < |name| ensures !IsSeparator(name[i]) {
      if i < |f| {
        assert name[i] == f[i];
      }
    }
  }

  /** A separator-free suffix of `path` is no longer than a suffix that
      starts right after a separator (or at the start of `path`). */
  lemma PlainSuffixBounded(path: string, plain: string, bounded: string)
    requires IsSuffix(plain, path)
    requires HasNoSeparator(plain)
    requires |bounded| <= |path|
    requires |bounded| < |path| ==> IsSeparator(path[|path| - |bounded| - 1])
    ensures |plain| <= |bounded|
  {
    forall j | |path| - |plain| <= j < |path| ensures !IsSeparator(path[j]) {
      assert path[j] == plain[j - (|path| - |plain|)];
    }
    if |bounded| < |path| {
      assert IsSeparator(path[|path| - |bounded| - 1]);
    }
  }

  /** Two separator-free suffixes of `path` that both start right after a
      separator (or at the start of `path`) are the same. */
  lemma SeparatedSuffixUnique(path: string, a: string, b: string)
    requires IsSuffix(a, path) && HasNoSeparator(a)
    requires |a| < |path| ==> IsSeparator(path[|path| - |a| - 1])
    requires IsSuffix(b, path) && HasNoSeparator(b)
    requires |b| < |path| ==> IsSeparator(path[|path| - |b| - 1])
    ensures a == b
  {
    PlainSuffixBounded(path, a, b);
    PlainSuffixBounded(path, b, a);
  }

  /** The three properties of FileName single out its result. */
  lemma FileNameUnique(path: string, name: string)
    requires IsSuffix(name, path)
    requires HasNoSeparator(name)
    requires |name| < |path| ==> IsSeparator(path[|path| - |name| - 1])
    ensures FileName(path) == name
  {
    SeparatedSuffixUnique(path, FileName(path), name);
  }

  /** A name without separators is its own file name. */
  lemma FileNameOfPlainName(name: string)
    requires HasNoSeparator(name)
    ensures FileName(name) == name
  {
    FileNameUnique(name, name);
  }

  /** Taking the file name twice gives the same as taking it once. */
  lemma FileNameIdempotent(path: string)
    ensures FileName(FileName(path)) == FileName(path)
  {
    FileNameOfPlainName(FileName(path));
  }

  /** Everything a caller is promised about one file name. */
  lemma FileNameFacts(path: string)
    ensures var name := FileName(path);
      && HasNoSeparator(name)
      && IsSuffix(name, path)
      && (HasNoSeparator(path) ==> name == path)
      && FileName(name) == name
  {
    if HasNoSeparator(path) {
      FileNameOfPlainName(path);
    }
    FileNameIdempotent(path);
  }

  /** FileNameFacts restated for a name already bound to the file name of
      `path`; a proof aid that keeps callers from unfolding FileName. */
  lemma FileNameFactsOf(name: string, path: string)
    requires name == FileName(path)
    ensures HasNoSeparator(name)
    ensures IsSuffix(name, path)
    ensures HasNoSeparator(path) ==> name == path
    ensures FileName(name) == name
  {
    FileNameFacts(path);
  }

  /** A full Windows path, as the GPU tool reports a process. */
  lemma FileNameExampleWindows()
    ensures FileName("C:\\Windows\\System32\\foo.exe") == "foo.exe"
  {
    FileNameUnique("C:\\Windows\\System32\\foo.exe", "foo.exe");
  }

  /** A path with forward slashes. */
  lemma FileNameExampleUnix()
    ensures FileName("/usr/bin/Xorg") == "Xorg"
  {
    FileNameUnique("/usr/bin/Xorg", "Xorg");
  }

  /** A bare name stays whole; a path ending in a separator has an empty name. */
  lemma FileNameExampleEdges()
    ensures FileName("dwm.exe") == "dwm.exe"
    ensures FileName("C:\\Games\\") == ""
  {
    FileNameUnique("dwm.exe", "dwm.exe");
    FileNameUnique("C:\\Games\\", "");
  }
}
