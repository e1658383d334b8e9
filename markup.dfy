/** The tag pattern `<[^>]+>` that the document converter uses, matched by hand:
    splitting a line on it while keeping the matches (`re.split` with the pattern
    in a capturing group) and deleting every match (`re.sub(pattern, '', s)`).
    Matches are found left to right, each one as soon as it can start. */
module Markup {
  import opened PyStr

  /** Index of the first `>` in s, or |s| when there is none. */
  function GtIndex(s: string): (i: nat)
    ensures i <= |s|
    ensures i < |s| ==> s[i] == '>'
    decreases |s|
  {
    if s == [] then 0 else if s[0] == '>' then 0 else 1 + GtIndex(s[1..])
  }

  /** No `>` comes before the index GtIndex finds. */
  lemma {:induction false} GtIndexFirst(s: string, k: nat)
    requires k < GtIndex(s)
    ensures s[k] != '>'
    decreases |s|
  {
    if k > 0 {
      GtIndexFirst(s[1..], k - 1);
    }
  }

  /** GtIndex reaches the end exactly when s holds no `>`. */
  lemma GtIndexNone(s: string)
    ensures GtIndex(s) == |s| <==> '>' !in s
  {
    if GtIndex(s) == |s| {
      forall k | 0 <= k < |s|
        ensures s[k] != '>'
      {
        GtIndexFirst(s, k);
      }
    }
  }

  /** Cutting s after its first `>` does not move it; and a `>` found in a prefix
      of s is the first one of s. */
  lemma {:induction false} GtIndexPrefix(s: string, m: nat)
    requires m <= |s|
    ensures GtIndex(s) < m ==> GtIndex(s[..m]) == GtIndex(s)
    ensures GtIndex(s[..m]) < m ==> GtIndex(s) == GtIndex(s[..m])
    decreases m
  {
    if m > 0 && s[0] != '>' {
      GtIndexPrefix(s[1..], m - 1);
      assert s[..m][1..] == s[1..][..m - 1];
    }
  }

  /** A whole match of `<[^>]+>`: a `<`, then at least one character, and the
      first `>` after the `<` is the last character. */
  predicate IsTag(t: string) {
    |t| >= 3 && t[0] == '<' && GtIndex(t[1..]) == |t| - 2
  }

  /** Text without `>` between `<` and `>` makes a tag. */
  lemma Bracketed(inner: string)
    requires inner != [] && '>' !in inner
    ensures IsTag(['<'] + inner + ['>'])
  {
    var t := ['<'] + inner + ['>'];
    assert t[1..] == inner + ['>'];
    GtIndexSkip(inner, ['>']);
  }

  /** Characters other than `>` in front of s push its first `>` back. */
  lemma {:induction false} GtIndexSkip(u: string, v: string)
    requires '>' !in u
    ensures GtIndex(u + v) == |u| + GtIndex(v)
    decreases |u|
  {
    if u != [] {
      assert (u + v)[0] == u[0];
      assert (u + v)[1..] == u[1..] + v;
      GtIndexSkip(u[1..], v);
    } else {
      assert u + v == v;
    }
  }

  /** Length of the match of the pattern at the very start of s, 0 when there is
      none. */
  function TagLen(s: string): (n: nat)
    ensures n <= |s|
  {
    if |s| >= 2 && s[0] == '<' && s[1] != '>' then
      var j := 1 + GtIndex(s[1..]);
      if j < |s| then j + 1 else 0
    else 0
  }

  /** The match found at the start of s is a tag. */
  lemma TagLenIsTag(s: string)
    requires TagLen(s) > 0
    ensures IsTag(s[..TagLen(s)])
  {
    var n := TagLen(s);
    GtIndexPrefix(s[1..], n - 1);
    assert s[..n][1..] == s[1..][..n - 1];
  }

  /** The match is the only prefix of s that is a tag. */
  lemma TagLenUnique(s: string, m: nat)
    requires 0 < m <= |s| && IsTag(s[..m])
    ensures TagLen(s) == m
  {
    assert s[..m][1..] == s[1..][..m - 1];
    GtIndexPrefix(s[1..], m - 1);
    assert s[0] == s[..m][0];
    assert s[1] == s[..m][1];
  }

  /** No position of s starts a match only when s holds no `<` that is followed,
      later on, by a `>` with something other than `>` in between. */
  lemma TagLenZero(c: char, t: string)
    requires c != '<' || t == [] || t[0] == '>' || '>' !in t
    ensures TagLen([c] + t) == 0
  {
    var s := [c] + t;
    assert s[1..] == t;
  }

  /** A tag at the start of a string is the match found there. */
  lemma TagLenOfTag(t: string, rest: string)
    requires IsTag(t)
    ensures TagLen(t + rest) == |t|
  {
    assert (t + rest)[..|t|] == t;
    TagLenUnique(t + rest, |t|);
  }

  /** The pieces joined back together, in order. */
  function Concat(pieces: seq<string>): string {
    if pieces == [] then "" else pieces[0] + Concat(pieces[1..])
  }

  /** The pieces at even positions: the text between matches. */
  function EvenPieces(pieces: seq<string>): seq<string>
    decreases |pieces|
  {
    if pieces == [] then [] else [pieces[0]] + OddPieces(pieces[1..])
  }

  /** The pieces at odd positions of a list. */
  function OddPieces(pieces: seq<string>): seq<string>
    decreases |pieces|
  {
    if pieces == [] then [] else EvenPieces(pieces[1..])
  }

  /** `re.split(r'(<[^>]+>)', s)`: text, match, text, ..., text. The list has odd
      length, every piece at an odd position is a tag, the text pieces may be
      empty, and concatenating the pieces reproduces s exactly. */
  function Split(s: string): (r: seq<string>)
    ensures |r| >= 1
    decreases |s|
  {
    if s == [] then [""]
    else
      var n := TagLen(s);
      if n > 0 then ["", s[..n]] + Split(s[n..])
      else
        var rest := Split(s[1..]);
        [[s[0]] + rest[0]] + rest[1..]
  }

  /** What `re.split` with a capturing group promises: the pieces alternate
      between text and tag, starting and ending with text, and joined back
      together they reproduce the line exactly. */
  lemma {:induction false} SplitSpec(s: string)
    ensures Alternates(Split(s)) && Concat(Split(s)) == s
    decreases |s|
  {
    if s != [] {
      var n := TagLen(s);
      if n > 0 {
        SplitSpec(s[n..]);
        SplitSpecTag(s, n);
      } else {
        SplitSpec(s[1..]);
        SplitSpecPlain(s);
      }
    }
  }

  lemma SplitSpecTag(s: string, n: nat)
    requires 0 < n == TagLen(s)
    requires Alternates(Split(s[n..])) && Concat(Split(s[n..])) == s[n..]
    ensures Alternates(Split(s)) && Concat(Split(s)) == s
  {
    var rest := Split(s[n..]);
    assert Split(s) == ["", s[..n]] + rest;
    TagLenIsTag(s);
    ConcatTag(s[..n], rest);
    AlternatesTag(s[..n], rest);
    assert s[..n] + s[n..] == s;
  }

  lemma SplitSpecPlain(s: string)
    requires s != [] && TagLen(s) == 0
    requires Alternates(Split(s[1..])) && Concat(Split(s[1..])) == s[1..]
    ensures Alternates(Split(s)) && Concat(Split(s)) == s
  {
    var rest := Split(s[1..]);
    assert Split(s) == [[s[0]] + rest[0]] + rest[1..];
    ConcatExtend(s[0], rest);
    AlternatesExtend(s[0], rest);
    assert [s[0]] + s[1..] == s;
  }

  /** Text and tag pieces alternate, starting and ending with text: a text piece,
      then any number of tag-and-text pairs. */
  predicate Alternates(pieces: seq<string>)
    decreases |pieces|
  {
    |pieces| == 1 || (|pieces| >= 3 && IsTag(pieces[1]) && Alternates(pieces[2..]))
  }

  /** Read by position: an odd number of pieces, and a tag at every odd position. */
  lemma {:induction false} AlternatesByPosition(pieces: seq<string>, k: nat)
    requires Alternates(pieces)
    ensures |pieces| % 2 == 1
    ensures k < |pieces| && k % 2 == 1 ==> IsTag(pieces[k])
    decreases |pieces|
  {
    if |pieces| > 1 {
      AlternatesByPosition(pieces[2..], if k >= 2 then k - 2 else 0);
      if k >= 2 && k < |pieces| {
        assert pieces[2..][k - 2] == pieces[k];
      }
    }
  }

  lemma AlternatesTag(t: string, rest: seq<string>)
    requires IsTag(t) && Alternates(rest)
    ensures Alternates(["", t] + rest)
  {
    var r := ["", t] + rest;
    assert r[1] == t && r[2..] == rest;
  }

  lemma AlternatesExtend(c: char, rest: seq<string>)
    requires |rest| >= 1 && Alternates(rest)
    ensures Alternates([[c] + rest[0]] + rest[1..])
  {
    var r := [[c] + rest[0]] + rest[1..];
    if |rest| > 1 {
      assert r[1] == rest[1] && r[2..] == rest[2..];
    }
  }

  lemma ConcatTag(t: string, rest: seq<string>)
    ensures Concat(["", t] + rest) == t + Concat(rest)
  {
    assert (["", t] + rest)[1..] == [t] + rest;
    assert ([t] + rest)[1..] == rest;
  }

  lemma ConcatExtend(c: char, rest: seq<string>)
    requires |rest| >= 1
    ensures Concat([[c] + rest[0]] + rest[1..]) == [c] + Concat(rest)
  {
    assert ([[c] + rest[0]] + rest[1..])[1..] == rest[1..];
  }

  /** A line that starts with a tag splits into an empty text, the tag, and the
      pieces of the rest. */
  lemma SplitTagFirst(t: string, rest: string)
    requires IsTag(t)
    ensures Split(t + rest) == ["", t] + Split(rest)
  {
    TagLenOfTag(t, rest);
    assert (t + rest)[..|t|] == t;
    assert (t + rest)[|t|..] == rest;
  }

  /** A character other than `<` in front of a line joins its first text piece. */
  lemma SplitConsPlain(c: char, u: string)
    requires c != '<'
    ensures Split([c] + u) == [[c] + Split(u)[0]] + Split(u)[1..]
  {
    var s := [c] + u;
    assert s[0] == c && s[1..] == u;
  }

  /** Text without `<` in front of a line joins the first text piece of the line. */
  lemma {:induction false} SplitPlainFirst(x: string, rest: string)
    requires '<' !in x
    ensures Split(x + rest) == [x + Split(rest)[0]] + Split(rest)[1..]
    decreases |x|
  {
    var after := Split(rest);
    if x == [] {
      assert x + rest == rest;
      assert x + after[0] == after[0];
      assert [after[0]] + after[1..] == after;
    } else {
      var tail := Split(x[1..] + rest);
      SplitPlainFirst(x[1..], rest);
      AppendAssoc([x[0]], x[1..], rest);
      assert [x[0]] + x[1..] == x;
      SplitConsPlain(x[0], x[1..] + rest);
      SplitPlainFirstStep(x, after, tail);
    }
  }

  lemma SplitPlainFirstStep(x: string, after: seq<string>, tail: seq<string>)
    requires x != [] && |after| >= 1 && tail == [x[1..] + after[0]] + after[1..]
    ensures [[x[0]] + tail[0]] + tail[1..] == [x + after[0]] + after[1..]
  {
    assert tail[0] == x[1..] + after[0] && tail[1..] == after[1..];
    AppendAssoc([x[0]], x[1..], after[0]);
    assert [x[0]] + x[1..] == x;
  }

  /** `re.sub(r'<[^>]+>', '', s)`: every match deleted, the rest kept in order. */
  function StripTags(s: string): (r: string)
    ensures |r| <= |s|
    ensures forall c :: c in r ==> c in s
    decreases |s|
  {
    if s == [] then []
    else
      var n := TagLen(s);
      if n > 0 then StripTags(s[n..]) else [s[0]] + StripTags(s[1..])
  }

  /** A string without `<` has nothing to delete. */
  lemma {:induction false} StripTagsNoAngle(s: string)
    requires '<' !in s
    ensures StripTags(s) == s
    decreases |s|
  {
    if s != [] {
      assert s[0] != '<';
      StripTagsNoAngle(s[1..]);
      assert [s[0]] + s[1..] == s;
    }
  }

  /** Deleting the matches leaves exactly the text pieces that splitting yields. */
  lemma {:induction false} StripTagsIsSplitText(s: string)
    ensures StripTags(s) == Concat(EvenPieces(Split(s)))
    decreases |s|
  {
    if s != [] {
      var n := TagLen(s);
      if n > 0 {
        StripTagsIsSplitText(s[n..]);
        EvenPiecesTag(s[..n], Split(s[n..]));
      } else {
        StripTagsIsSplitText(s[1..]);
        EvenPiecesExtend(s[0], Split(s[1..]));
      }
    }
  }

  /** A tag piece and the empty text before it add nothing to the text. */
  lemma EvenPiecesTag(t: string, rest: seq<string>)
    ensures Concat(EvenPieces(["", t] + rest)) == Concat(EvenPieces(rest))
  {
    var r := ["", t] + rest;
    assert r[1..] == [t] + rest && r[1..][1..] == rest;
    assert ([""] + EvenPieces(rest))[1..] == EvenPieces(rest);
  }

  /** A character joined to the first text piece comes first in the text. */
  lemma EvenPiecesExtend(c: char, rest: seq<string>)
    requires |rest| >= 1
    ensures Concat(EvenPieces([[c] + rest[0]] + rest[1..])) == [c] + Concat(EvenPieces(rest))
  {
    var r := [[c] + rest[0]] + rest[1..];
    var odd := OddPieces(rest[1..]);
    assert r[0] == [c] + rest[0] && r[1..] == rest[1..];
    assert ([r[0]] + odd)[1..] == odd;
    assert ([rest[0]] + odd)[1..] == odd;
    assert Concat(EvenPieces(r)) == ([c] + rest[0]) + Concat(odd);
    assert Concat(EvenPieces(rest)) == rest[0] + Concat(odd);
    AppendAssoc([c], rest[0], Concat(odd));
  }

  /** No position of s starts a match of the pattern. */
  predicate NoTag(s: string) {
    forall p :: 0 <= p < |s| ==> TagLen(s[p..]) == 0
  }

  lemma NoTagCons(c: char, t: string)
    requires NoTag(t) && TagLen([c] + t) == 0
    ensures NoTag([c] + t)
  {
    forall p | 0 < p < |t| + 1
      ensures TagLen(([c] + t)[p..]) == 0
    {
      assert ([c] + t)[p..] == t[p - 1..];
    }
  }

  lemma NoTagSuffix(s: string, k: nat)
    requires NoTag(s) && k <= |s|
    ensures NoTag(s[k..])
  {
    forall p | 0 <= p < |s| - k
      ensures TagLen(s[k..][p..]) == 0
    {
      assert s[k..][p..] == s[k + p..];
    }
  }

  /** A line without tags is split into one piece: itself. */
  lemma {:induction false} SplitNoTag(s: string)
    requires NoTag(s)
    ensures Split(s) == [s]
    decreases |s|
  {
    if s != [] {
      assert TagLen(s[0..]) == 0;
      assert s[0..] == s;
      NoTagSuffix(s, 1);
      SplitNoTag(s[1..]);
      assert [s[0]] + s[1..] == s;
    }
  }

  /** A string without `<` holds no tag. */
  lemma NoAngleNoTag(s: string)
    requires '<' !in s
    ensures NoTag(s)
  {
    forall p | 0 <= p < |s|
      ensures TagLen(s[p..]) == 0
    {
      assert s[p..][0] == s[p];
    }
  }

  /** Deleting the matches cannot create a new one: the result holds no tag. */
  lemma {:induction false} StripTagsLeavesNoTag(s: string)
    ensures NoTag(StripTags(s))
    decreases |s|
  {
    if s != [] {
      var n := TagLen(s);
      if n > 0 {
        StripTagsLeavesNoTag(s[n..]);
      } else {
        var t := StripTags(s[1..]);
        StripTagsLeavesNoTag(s[1..]);
        if s[0] == '<' && |s| >= 2 {
          if s[1] == '>' {
            assert TagLen(s[1..]) == 0;
            assert t == [s[1]] + StripTags(s[2..]) by {
              assert s[1..][1..] == s[2..];
            }
          } else {
            GtIndexNone(s[1..]);
          }
        }
        TagLenZero(s[0], t);
        NoTagCons(s[0], t);
      }
    }
  }

  /** Deleting a pattern that holds neither `<` nor `>` from a string without tags
      leaves a string without tags. */
  lemma {:induction false} RemoveAllKeepsNoTag(s: string, pat: string)
    requires pat != [] && '<' !in pat && '>' !in pat
    requires NoTag(s)
    ensures NoTag(RemoveAll(s, pat))
    decreases |s|
  {
    if s != [] {
      if StartsWith(s, pat) {
        NoTagSuffix(s, |pat|);
        RemoveAllKeepsNoTag(s[|pat|..], pat);
      } else {
        var t := RemoveAll(s[1..], pat);
        NoTagSuffix(s, 1);
        RemoveAllKeepsNoTag(s[1..], pat);
        assert TagLen(s[0..]) == 0;
        assert s[0..] == s;
        if s[0] == '<' && |s| >= 2 {
          if s[1] == '>' {
            RemoveAllKeepsFirst(s[1..], pat);
          } else {
            GtIndexNone(s[1..]);
          }
        }
        TagLenZero(s[0], t);
        NoTagCons(s[0], t);
      }
    }
  }
}
