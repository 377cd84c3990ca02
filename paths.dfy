/**
  * The two attributes of `pathlib.PurePosixPath` that the upload handling reads:
  * `name` (the last component) and `suffix` (the extension of that component).
  */
module Paths {
  import opened Wrappers
  import opened Text

  /** The components that survive path parsing: empty ones (from `//` or a trailing
      slash) and `.` are dropped. */
  function Kept(parts: seq<string>): (r: seq<string>)
    ensures forall c :: c in r ==> c in parts && c != [] && c != "."
  {
    if parts == [] then []
    else if parts[0] == [] || parts[0] == "." then Kept(parts[1..])
    else [parts[0]] + Kept(parts[1..])
  }

  lemma {:induction false} KeptAppend(a: seq<string>, b: seq<string>)
    ensures Kept(a + b) == Kept(a) + Kept(b)
  {
    if a != [] {
      assert (a + b)[1..] == a[1..] + b;
      KeptAppend(a[1..], b);
    } else {
      assert a + b == b;
    }
  }

  /** The components of a POSIX path. */
  function Components(p: string): (r: seq<string>)
    ensures forall c :: c in r ==> c != [] && c != "." && '/' !in c
  {
    Kept(SplitOn(p, '/'))
  }

  /** `Path(p).name`: the last component, or empty for `""`, `"/"` and `"."`. */
  function Name(p: string): (r: string)
    ensures '/' !in r && r != "."
  {
    var cs := Components(p);
    if cs == [] then [] else cs[|cs| - 1]
  }

  /** Python's `s.rfind(c)`, with None for -1. */
  function LastIndexOf(s: string, c: char): (r: Option<nat>)
    ensures r.None? ==> c !in s
    ensures r.Some? ==> r.value < |s| && s[r.value] == c && c !in s[r.value + 1..]
  {
    if s == [] then None
    else if s[|s| - 1] == c then Some(|s| - 1)
    else
      var r := LastIndexOf(s[..|s| - 1], c);
      assert r.Some? ==> s[r.value + 1..] == s[..|s| - 1][r.value + 1..] + [s[|s| - 1]];
      r
  }

  /** `Path(p).suffix`: from the last dot of the name to its end, provided that dot is
      neither the name's first character nor its last; otherwise empty. */
  function Suffix(p: string): (r: string)
    ensures r == [] || (2 <= |r| && r[0] == '.' && '.' !in r[1..] && '/' !in r)
    ensures r != [] ==> |r| < |Name(p)| && Name(p)[|Name(p)| - |r|..] == r
  {
    var name := Name(p);
    match LastIndexOf(name, '.')
    case Some(i) =>
      if 0 < i < |name| - 1 then
        assert name[i..][1..] == name[i + 1..];
        assert forall k :: 0 <= k < |name[i..]| ==> name[i..][k] == name[i + k];
        name[i..]
      else []
    case None => []
  }

  /** Splitting `s + "/" + n` at slashes ends with the piece `n`. */
  lemma SplitOnLast(s: string, n: string, c: char)
    requires c !in n
    ensures SplitOn(s + [c] + n, c) == SplitOn(s, c) + [n]
  {
    var parts := SplitOn(s, c) + [n];
    JoinSplitOn(s, c);
    JoinAppend(SplitOn(s, c), [n], [c]);
    assert Join(parts, [c]) == s + [c] + n;
    SplitOnJoin(parts, c);
  }

  /** A bare file name is its own name. */
  lemma NameOfPlain(n: string)
    requires n != [] && n != "." && '/' !in n
    ensures Name(n) == n
  {
    SplitOnNoSep(n, '/');
    assert Kept([n]) == [n] + Kept([]);
  }

  /** The name of `dir/n` is `n`, whatever the directory. */
  lemma NameOfChild(dir: string, n: string)
    requires n != [] && n != "." && '/' !in n
    ensures Name(dir + "/" + n) == n
  {
    SplitOnLast(dir, n, '/');
    KeptAppend(SplitOn(dir, '/'), [n]);
    assert Kept([n]) == [n] + Kept([]);
  }

  /** The suffix of a name `stem + ext`, where `ext` is a dot followed by a non-empty
      extension without dots and `stem` is not empty, is `ext`. */
  lemma {:induction false} SuffixOfName(stem: string, ext: string)
    requires stem != [] && '/' !in stem
    requires 2 <= |ext| && ext[0] == '.' && '.' !in ext[1..] && '/' !in ext
    ensures Suffix(stem + ext) == ext
  {
    var name := stem + ext;
    assert '/' !in name by {
      assert forall k :: 0 <= k < |name| ==> name[k] == if k < |stem| then stem[k] else ext[k - |stem|];
    }
    NameOfPlain(name);
    var li := LastIndexOf(name, '.');
    assert name[|stem|] == '.';
    assert li.Some?;
    assert li.value == |stem|;
    assert name[|stem|..] == ext;
  }

  /** The same holds under any directory. */
  lemma SuffixOfChild(dir: string, stem: string, ext: string)
    requires stem != [] && '/' !in stem
    requires 2 <= |ext| && ext[0] == '.' && '.' !in ext[1..] && '/' !in ext
    ensures Suffix(dir + "/" + stem + ext) == ext
  {
    SuffixOfName(stem, ext);
    var name := stem + ext;
    assert '/' !in name by {
      assert forall k :: 0 <= k < |name| ==> name[k] == if k < |stem| then stem[k] else ext[k - |stem|];
    }
    NameOfPlain(name);
    NameOfChild(dir, name);
    assert dir + "/" + stem + ext == dir + "/" + name;
  }

  /** A hidden file such as `.mp3` has no suffix: its only dot is its first character. */
  lemma DotFileHasNoSuffix(ext: string)
    requires 2 <= |ext| && ext[0] == '.' && '.' !in ext[1..] && '/' !in ext
    ensures Suffix(ext) == []
  {
    NameOfPlain(ext);
    var li := LastIndexOf(ext, '.');
    assert ext[0] == '.';
    assert li.Some?;
  }
}
