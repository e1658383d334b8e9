/** `os.path.join` and `os.path.basename` as they behave on POSIX systems. */
module PosixPath {
  import opened PyStr

  /** `os.path.join(dir, name)`: an absolute `name` discards `dir`; otherwise a
      single `/` separates the two unless `dir` is empty or already ends in one. */
  function Join(dir: string, name: string): string {
    if StartsWith(name, "/") then name
    else if dir == [] || EndsWith(dir, "/") then dir + name
    else dir + "/" + name
  }

  /** `os.path.basename(p)`: everything after the last `/`. */
  function Basename(p: string): string
    decreases |p|
  {
    if p == [] || p[|p| - 1] == '/' then [] else Basename(p[..|p| - 1]) + [p[|p| - 1]]
  }

  /** The base name is the longest tail of the path without `/`: it has no
      `/`, ends the path, and is either all of it or preceded by a `/`. */
  lemma BasenameIsLastPart(p: string)
    ensures var r := Basename(p);
      '/' !in r && EndsWith(p, r) && (|r| < |p| ==> p[|p| - |r| - 1] == '/')
  {
    BasenameHasNoSlash(p);
    BasenameEndsPath(p);
  }

  lemma {:induction false} BasenameHasNoSlash(p: string)
    ensures '/' !in Basename(p)
    decreases |p|
  {
    if p != [] && p[|p| - 1] != '/' {
      BasenameHasNoSlash(p[..|p| - 1]);
    }
  }

  lemma {:induction false} BasenameEndsPath(p: string)
    ensures var r := Basename(p);
      EndsWith(p, r) && (|r| < |p| ==> p[|p| - |r| - 1] == '/')
    decreases |p|
  {
    if p != [] && p[|p| - 1] != '/' {
      var q, c := p[..|p| - 1], p[|p| - 1];
      BasenameEndsPath(q);
      var r', r := Basename(q), Basename(p);
      assert r == r' + [c];
      assert p[|p| - |r|..] == q[|q| - |r'|..] + [c];
      if |r| < |p| {
        assert p[|p| - |r| - 1] == q[|q| - |r'| - 1];
      }
    }
  }

  /** Adding one character: `/` empties the base name, anything else extends it. */
  lemma BasenameSnoc(q: string, c: char)
    ensures Basename(q + [c]) == if c == '/' then [] else Basename(q) + [c]
  {
    var s := q + [c];
    assert s[..|s| - 1] == q;
  }

  /** Appending a tail to a path: a tail without `/` extends the base name,
      a tail with one decides the base name alone. */
  lemma {:induction false} BasenameAppend(p: string, t: string)
    ensures Basename(p + t) == if '/' in t then Basename(t) else Basename(p) + t
    decreases |t|
  {
    if t == [] {
      assert p + t == p;
    } else {
      var t', c := t[..|t| - 1], t[|t| - 1];
      assert t == t' + [c];
      assert '/' in t <==> '/' in t' || c == '/';
      AppendAssoc(p, t', [c]);
      AppendAssoc(Basename(p), t', [c]);
      BasenameAppend(p, t');
      BasenameSnoc(p + t', c);
      BasenameSnoc(t', c);
    }
  }

  /** A name without `/` is its own base name. */
  lemma BasenameOfPlainName(name: string)
    requires '/' !in name
    ensures Basename(name) == name
  {
    BasenameAppend([], name);
    assert [] + name == name;
  }

  /** The base name of a file joined under a directory is the file's own base name. */
  lemma BasenameOfJoin(dir: string, name: string)
    ensures Basename(Join(dir, name)) == Basename(name)
  {
    if !StartsWith(name, "/") {
      var d := if dir == [] || EndsWith(dir, "/") then dir else dir + "/";
      assert Join(dir, name) == d + name;
      assert Basename(d) == [];
      BasenameAppend(d, name);
      if '/' !in name {
        BasenameOfPlainName(name);
      }
    }
  }

  /** A path joined under a directory from a prefix and a part without `/`:
      its base name is the prefix's base name followed by that part. */
  lemma BasenameOfJoinedTail(dir: string, prefix: string, tail: string)
    requires '/' !in tail
    ensures Basename(Join(dir, prefix + tail)) == Basename(prefix) + tail
  {
    BasenameOfJoin(dir, prefix + tail);
    BasenameAppend(prefix, tail);
  }

  /** Joining under a fixed directory never maps two names to one path. */
  lemma JoinInjective(dir: string, a: string, b: string)
    requires Join(dir, a) == Join(dir, b)
    requires dir != [] && !StartsWith(dir, "/")
    ensures a == b
  {
    var d := if EndsWith(dir, "/") then dir else dir + "/";
    if !StartsWith(a, "/") && !StartsWith(b, "/") {
      assert a == (d + a)[|d|..];
      assert b == (d + b)[|d|..];
    }
  }
}
