/** The file names the content endpoints give to the documents they write:
    a title is cut down to a safe label, and within one request a counter
    suffix keeps every name different from the names already handed out.
    Python's Unicode-aware `str.isalnum` is a parameter `isAlnum` throughout. */
module Filenames {
  import opened PyStr

  /** Characters the sanitiser keeps: letters and digits, space, `.`, `_` and `-`. */
  predicate KeptChar(isAlnum: char -> bool, c: char) {
    isAlnum(c) || c == ' ' || c == '.' || c == '_' || c == '-'
  }

  /** `"".join([c for c in s if c.isalnum() or c in (' ', '.', '_', '-')])` */
  function KeepFilenameChars(isAlnum: char -> bool, s: string): (r: string)
    ensures |r| <= |s|
    decreases |s|
  {
    if s == [] then []
    else (if KeptChar(isAlnum, s[0]) then [s[0]] else []) + KeepFilenameChars(isAlnum, s[1..])
  }

  /** The filter keeps exactly the allowed characters: every character left is
      allowed and every allowed character of s is still there. */
  lemma {:induction false} KeepFilenameCharsSpec(isAlnum: char -> bool, s: string, c: char)
    ensures c in KeepFilenameChars(isAlnum, s) <==> c in s && KeptChar(isAlnum, c)
    decreases |s|
  {
    if s != [] {
      KeepFilenameCharsSpec(isAlnum, s[1..], c);
      assert c in s <==> c == s[0] || c in s[1..];
    }
  }

  /** A string of allowed characters only passes the filter unchanged. */
  lemma {:induction false} KeepFilenameCharsClean(isAlnum: char -> bool, s: string)
    requires forall i :: 0 <= i < |s| ==> KeptChar(isAlnum, s[i])
    ensures KeepFilenameChars(isAlnum, s) == s
    decreases |s|
  {
    if s != [] {
      KeepFilenameCharsClean(isAlnum, s[1..]);
      assert [s[0]] + s[1..] == s;
    }
  }

  /** The filter works character by character, so it distributes over concatenation. */
  lemma {:induction false} KeepFilenameCharsAppend(isAlnum: char -> bool, a: string, b: string)
    ensures KeepFilenameChars(isAlnum, a + b) == KeepFilenameChars(isAlnum, a) + KeepFilenameChars(isAlnum, b)
    decreases |a|
  {
    if a == [] {
      assert a + b == b;
    } else {
      assert (a + b)[0] == a[0] && (a + b)[1..] == a[1..] + b;
      KeepFilenameCharsAppend(isAlnum, a[1..], b);
      var head := if KeptChar(isAlnum, a[0]) then [a[0]] else [];
      AppendAssoc(head, KeepFilenameChars(isAlnum, a[1..]), KeepFilenameChars(isAlnum, b));
    }
  }

  /** The filter, then `.strip()`. */
  function Sanitize(isAlnum: char -> bool, s: string): string {
    Strip(KeepFilenameChars(isAlnum, s))
  }

  /** Every character of a sanitised label is allowed, and the label has no
      whitespace at either end. */
  lemma SanitizeSpec(isAlnum: char -> bool, s: string, c: char)
    ensures c in Sanitize(isAlnum, s) ==> c in s && KeptChar(isAlnum, c)
    ensures var r := Sanitize(isAlnum, s); r == [] || (!IsSpace(r[0]) && !IsSpace(r[|r| - 1]))
  {
    var k := KeepFilenameChars(isAlnum, s);
    StripProperties(k);
    if c in Strip(k) {
      StripChars(k, c);
      KeepFilenameCharsSpec(isAlnum, s, c);
    }
  }

  /** Sanitising twice gives what sanitising once gives. */
  lemma SanitizeIdempotent(isAlnum: char -> bool, s: string)
    ensures Sanitize(isAlnum, Sanitize(isAlnum, s)) == Sanitize(isAlnum, s)
  {
    var r := Sanitize(isAlnum, s);
    forall i | 0 <= i < |r|
      ensures KeptChar(isAlnum, r[i])
    {
      SanitizeSpec(isAlnum, s, r[i]);
    }
    KeepFilenameCharsClean(isAlnum, r);
    SanitizeSpec(isAlnum, s, ' ');
    StripUnchanged(r);
  }

  /** A label that is already clean, made of allowed characters and without
      whitespace at its ends, is left unchanged. */
  lemma SanitizeClean(isAlnum: char -> bool, s: string)
    requires forall i :: 0 <= i < |s| ==> KeptChar(isAlnum, s[i])
    requires s == [] || (!IsSpace(s[0]) && !IsSpace(s[|s| - 1]))
    ensures Sanitize(isAlnum, s) == s
  {
    KeepFilenameCharsClean(isAlnum, s);
    StripUnchanged(s);
  }

  /** Since `/` is not alphanumeric, a sanitised label holds no path separator. */
  lemma SanitizedHasNoSlash(isAlnum: char -> bool, s: string)
    requires !isAlnum('/')
    ensures '/' !in Sanitize(isAlnum, s)
  {
    SanitizeSpec(isAlnum, s, '/');
  }

  /** A name that ends in `.docx` still does after sanitising, as long as
      `d`, `o`, `c` and `x` count as alphanumeric. */
  lemma SanitizeKeepsDocx(isAlnum: char -> bool, s: string)
    requires isAlnum('d') && isAlnum('o') && isAlnum('c') && isAlnum('x')
    ensures EndsWith(Sanitize(isAlnum, s + ".docx"), ".docx")
  {
    var ext := ".docx";
    DocxExtensionKept(isAlnum, ext);
    KeepFilenameCharsAppend(isAlnum, s, ext);
    StripKeepsTail(KeepFilenameChars(isAlnum, s), ext);
  }

  lemma DocxExtensionKept(isAlnum: char -> bool, ext: string)
    requires isAlnum('d') && isAlnum('o') && isAlnum('c') && isAlnum('x')
    requires ext == ".docx"
    ensures KeepFilenameChars(isAlnum, ext) == ext
    ensures ext != [] && forall i :: 0 <= i < |ext| ==> !IsSpace(ext[i])
  {
    assert |ext| == 5 && ext[0] == '.' && ext[1] == 'd' && ext[2] == 'o' && ext[3] == 'c' && ext[4] == 'x';
    forall i | 0 <= i < |ext|
      ensures KeptChar(isAlnum, ext[i]) && !IsSpace(ext[i])
    {
      assert i == 0 || i == 1 || i == 2 || i == 3 || i == 4;
    }
    KeepFilenameCharsClean(isAlnum, ext);
  }

  /** The label of a title: sanitised, or `article` when nothing is left. */
  function BaseLabel(isAlnum: char -> bool, title: string): (r: string)
    ensures r != []
  {
    var base := Sanitize(isAlnum, title);
    if base == [] then "article" else base
  }

  /** Name tried with counter k: `{location}_{base}.docx` first, then
      `{location}_{base}_{k}.docx` for k = 1, 2, ... The location is not sanitised. */
  function Candidate(location: string, base: string, k: nat): string {
    location + "_" + base + CandidateSuffix(k)
  }

  function CandidateSuffix(k: nat): string {
    if k == 0 then ".docx" else "_" + Decimal(k) + ".docx"
  }

  /** A counted name written out the way the loop's f-string builds it. */
  lemma CandidateShape(location: string, base: string, k: nat)
    requires k > 0
    ensures Candidate(location, base, k) == location + "_" + base + "_" + Decimal(k) + ".docx"
  {
    var p := location + "_" + base;
    AppendAssoc(p, "_" + Decimal(k), ".docx");
    AppendAssoc(p, "_", Decimal(k));
  }

  /** A name tried for a title is the location followed by a part without
      `/`, as long as `/` is not alphanumeric. */
  lemma CandidateAfterLocation(location: string, isAlnum: char -> bool, title: string, k: nat)
    requires !isAlnum('/')
    ensures var tail := "_" + BaseLabel(isAlnum, title) + CandidateSuffix(k);
      '/' !in tail && Candidate(location, BaseLabel(isAlnum, title), k) == location + tail
  {
    var base := BaseLabel(isAlnum, title);
    if base != "article" {
      SanitizedHasNoSlash(isAlnum, title);
    }
    if k > 0 {
      assert '/' !in Decimal(k);
    }
    assert '/' !in CandidateSuffix(k);
    AppendAssoc(location, "_" + base, CandidateSuffix(k));
    AppendAssoc(location, "_", base);
  }

  /** Different counters give different names. */
  lemma CandidateInjective(location: string, base: string, i: nat, j: nat)
    requires Candidate(location, base, i) == Candidate(location, base, j)
    ensures i == j
  {
    var p := location + "_" + base;
    var a, b := CandidateSuffix(i), CandidateSuffix(j);
    assert a == (p + a)[|p|..];
    assert b == (p + b)[|p|..];
    SuffixInjective(i, j);
  }

  lemma CandidateDistinct(location: string, base: string, i: nat, j: nat)
    requires i != j
    ensures Candidate(location, base, i) != Candidate(location, base, j)
  {
    if Candidate(location, base, i) == Candidate(location, base, j) {
      CandidateInjective(location, base, i, j);
    }
  }

  lemma SuffixInjective(i: nat, j: nat)
    requires CandidateSuffix(i) == CandidateSuffix(j)
    ensures i == j
  {
    var a, b := CandidateSuffix(i), CandidateSuffix(j);
    if i == 0 || j == 0 {
      assert a[0] == b[0];
    } else {
      var di, dj := Decimal(i), Decimal(j);
      assert |di| == |dj|;
      assert di == a[1..1 + |di|];
      assert dj == b[1..1 + |dj|];
      DecimalInjective(i, j);
    }
  }

  /** The names tried before counter n. */
  function Tried(location: string, base: string, n: nat): set<string> {
    if n == 0 then {} else Tried(location, base, n - 1) + {Candidate(location, base, n - 1)}
  }

  lemma {:induction false} TriedMember(location: string, base: string, n: nat, m: nat)
    ensures Candidate(location, base, m) in Tried(location, base, n) <==> m < n
  {
    if n > 0 {
      TriedMember(location, base, n - 1, m);
      if m != n - 1 {
        CandidateDistinct(location, base, m, n - 1);
      }
    }
  }

  lemma {:induction false} TriedSize(location: string, base: string, n: nat)
    ensures |Tried(location, base, n)| == n
  {
    if n > 0 {
      TriedSize(location, base, n - 1);
      TriedMember(location, base, n - 1, n - 1);
    }
  }

  /** As many names as were tried are taken, so the counter never passes the
      number of names in use: the search ends. */
  lemma TriedBound(used: set<string>, location: string, base: string, n: nat)
    requires Tried(location, base, n) <= used
    ensures n <= |used|
  {
    TriedSize(location, base, n);
    assert used == Tried(location, base, n) + (used - Tried(location, base, n));
  }

  /** Counter of the first free name, searching from counter k. */
  function FreeFrom(used: set<string>, location: string, base: string, k: nat): nat
    requires Tried(location, base, k) <= used
    decreases |used| - k
  {
    if Candidate(location, base, k) !in used then k
    else
      TriedBound(used, location, base, k + 1);
      FreeFrom(used, location, base, k + 1)
  }

  /** Counter of the name `get_unique_filename` settles on. */
  function FreeIndex(used: set<string>, location: string, base: string): nat {
    FreeFrom(used, location, base, 0)
  }

  /** The name `get_unique_filename` returns for a title, given the names in use. */
  function Allocate(used: set<string>, location: string, isAlnum: char -> bool, title: string): string {
    var base := BaseLabel(isAlnum, title);
    Candidate(location, base, FreeIndex(used, location, base))
  }

  lemma {:induction false} FreeFromSpec(used: set<string>, location: string, base: string, k: nat)
    requires Tried(location, base, k) <= used
    ensures var r := FreeFrom(used, location, base, k);
      k <= r <= |used| && Candidate(location, base, r) !in used && Tried(location, base, r) <= used
    decreases |used| - k
  {
    TriedBound(used, location, base, k);
    if Candidate(location, base, k) in used {
      TriedBound(used, location, base, k + 1);
      FreeFromSpec(used, location, base, k + 1);
    }
  }

  /** The counter found is the smallest one whose name is free: the name is not
      in use, every name with a smaller counter is, and the counter is at most
      the number of names in use. */
  lemma FreeIndexSpec(used: set<string>, location: string, base: string, j: nat)
    ensures Candidate(location, base, FreeIndex(used, location, base)) !in used
    ensures FreeIndex(used, location, base) <= |used|
    ensures j < FreeIndex(used, location, base) ==> Candidate(location, base, j) in used
  {
    FreeFromSpec(used, location, base, 0);
    TriedMember(location, base, FreeIndex(used, location, base), j);
  }

  /** The allocated name is new, and no two allocations in a row give the same name. */
  lemma AllocateFresh(used: set<string>, location: string, isAlnum: char -> bool, title: string, other: string)
    ensures Allocate(used, location, isAlnum, title) !in used
    ensures Allocate(used + {Allocate(used, location, isAlnum, title)}, location, isAlnum, other)
         != Allocate(used, location, isAlnum, title)
  {
    var name := Allocate(used, location, isAlnum, title);
    FreeIndexSpec(used, location, BaseLabel(isAlnum, title), 0);
    FreeIndexSpec(used + {name}, location, BaseLabel(isAlnum, other), 0);
  }

  /** Allocated names keep to the `{location}_...docx` pattern. */
  lemma AllocateShape(used: set<string>, location: string, isAlnum: char -> bool, title: string)
    ensures StartsWith(Allocate(used, location, isAlnum, title), location + "_")
    ensures EndsWith(Allocate(used, location, isAlnum, title), ".docx")
  {
    var base := BaseLabel(isAlnum, title);
    var k := FreeIndex(used, location, base);
    AppendAssoc(location + "_", base, CandidateSuffix(k));
    if k > 0 {
      AppendAssoc("_" + Decimal(k), ".docx", []);
    }
  }

  /** The smallest free counter is the only counter with the two properties
      of FreeIndexSpec: every earlier name taken, its own name free. */
  lemma FreeIndexIs(used: set<string>, location: string, base: string, k: nat)
    requires Tried(location, base, k) <= used && Candidate(location, base, k) !in used
    ensures FreeIndex(used, location, base) == k
  {
    var r := FreeIndex(used, location, base);
    FreeIndexSpec(used, location, base, k);
    TriedMember(location, base, k, r);
  }

  /** Three articles titled `Food` for `Tokyo` are saved as `Tokyo_Food.docx`,
      `Tokyo_Food_1.docx` and `Tokyo_Food_2.docx`. */
  lemma TokyoFoodExample(isAlnum: char -> bool, location: string, title: string)
    requires location == "Tokyo" && title == "Food"
    requires isAlnum('F') && isAlnum('o') && isAlnum('d')
    ensures Allocate({}, location, isAlnum, title) == "Tokyo_Food.docx"
    ensures Allocate({"Tokyo_Food.docx"}, location, isAlnum, title) == "Tokyo_Food_1.docx"
    ensures Allocate({"Tokyo_Food.docx", "Tokyo_Food_1.docx"}, location, isAlnum, title) == "Tokyo_Food_2.docx"
  {
    FoodLabel(isAlnum, title);
    TokyoFoodNames(location, title);
    var c0, c1, c2 := Candidate(location, title, 0), Candidate(location, title, 1), Candidate(location, title, 2);
    CandidateDistinct(location, title, 0, 1);
    CandidateDistinct(location, title, 0, 2);
    CandidateDistinct(location, title, 1, 2);
    FreeIndexIs({}, location, title, 0);
    FreeIndexIs({c0}, location, title, 1);
    FreeIndexIs({c0, c1}, location, title, 2);
  }

  lemma FoodLabel(isAlnum: char -> bool, title: string)
    requires title == "Food" && isAlnum('F') && isAlnum('o') && isAlnum('d')
    ensures BaseLabel(isAlnum, title) == title
  {
    SanitizeClean(isAlnum, title);
  }

  lemma TokyoFoodNames(location: string, title: string)
    requires location == "Tokyo" && title == "Food"
    ensures Candidate(location, title, 0) == "Tokyo_Food.docx"
    ensures Candidate(location, title, 1) == "Tokyo_Food_1.docx"
    ensures Candidate(location, title, 2) == "Tokyo_Food_2.docx"
  {
    var p := location + "_" + title;
    assert p == "Tokyo_Food";
    CounterName(1, "_1.docx");
    CounterName(2, "_2.docx");
  }

  lemma CounterName(k: nat, suffix: string)
    requires 0 < k < 10 && suffix == ['_', DigitChar(k), '.', 'd', 'o', 'c', 'x']
    ensures CandidateSuffix(k) == suffix
  {
  }
}
