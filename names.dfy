/** The string helpers the organiser relies on: pathlib's `suffix`, `stem` and
    `with_suffix`, `os.path.splitext`, `str.lower`, `str.strip`, `startswith`,
    substring search, and the order in which a directory is listed. */
module Names {

  /** Index of the last occurrence of `c` in `s`, or -1 (Python's `str.rfind`). */
  function LastIndexOf(s: string, c: char): (i: int)
    ensures -1 <= i < |s|
    ensures i >= 0 ==> s[i] == c && forall k :: i < k < |s| ==> s[k] != c
    ensures i == -1 ==> forall k :: 0 <= k < |s| ==> s[k] != c
    decreases |s|
  {
    if |s| == 0 then -1
    else if s[|s| - 1] == c then |s| - 1
    else LastIndexOf(s[..|s| - 1], c)
  }

  /** Index of the first occurrence of `c` in `s`, or -1 (Python's `str.find`). */
  function FirstIndexOf(s: string, c: char): (i: int)
    ensures -1 <= i < |s|
    ensures i >= 0 ==> s[i] == c && forall k :: 0 <= k < i ==> s[k] != c
    ensures i == -1 ==> forall k :: 0 <= k < |s| ==> s[k] != c
    decreases |s|
  {
    if |s| == 0 then -1
    else if s[0] == c then 0
    else
      var j := FirstIndexOf(s[1..], c);
      if j < 0 then -1 else j + 1
  }

  /** pathlib's `PurePath.suffix`: from the last dot on, when that dot is
      neither the first nor the last character of the name. */
  function Suffix(name: string): (r: string)
    ensures r != "" ==> |r| >= 2 && r[0] == '.' && forall k :: 1 <= k < |r| ==> r[k] != '.'
    ensures r != "" ==> |r| < |name| && name[|name| - |r|..] == r
    ensures r == "" <==>
      (|name| == 0 || name[|name| - 1] == '.' || forall k :: 0 < k < |name| - 1 ==> name[k] != '.')
  {
    var i := LastIndexOf(name, '.');
    if 0 < i < |name| - 1 then name[i..] else ""
  }

  /** pathlib's `PurePath.stem`: the name without its suffix. */
  function Stem(name: string): (r: string)
    ensures r + Suffix(name) == name
    ensures name != "" ==> r != ""
  {
    var i := LastIndexOf(name, '.');
    if 0 < i < |name| - 1 then name[..i] else name
  }

  /** pathlib's `PurePath.with_suffix`: the stem followed by the new suffix. */
  function WithSuffix(name: string, suffix: string): string
  {
    Stem(name) + suffix
  }

  predicate AllDots(s: string)
  {
    forall k :: 0 <= k < |s| ==> s[k] == '.'
  }

  /** The extension part of `os.path.splitext` on a bare file name: from the
      last dot on, unless only dots precede it (so leading dots never start an
      extension, and a trailing dot is an extension of its own). */
  function SplitExt(name: string): (ext: string)
    ensures ext != "" ==> ext[0] == '.' && |ext| <= |name| && name[|name| - |ext|..] == ext
    ensures ext != "" ==> forall k :: 1 <= k < |ext| ==> ext[k] != '.'
    ensures ext != "" <==> exists j, i :: 0 <= j < i < |name| && name[j] != '.' && name[i] == '.'
  {
    var dot := LastIndexOf(name, '.');
    if dot >= 0 && !AllDots(name[..dot]) then
      assert exists j :: 0 <= j < dot && name[..dot][j] != '.';
      name[dot..]
    else
      assert forall j, i :: 0 <= j < i < |name| && name[j] != '.' && name[i] == '.' ==>
        i <= dot && name[..dot][j] == name[j];
      ""
  }

  predicate IsUpper(c: char)
  {
    'A' <= c <= 'Z'
  }

  /** `str.lower` on ASCII letters. */
  function LowerChar(c: char): (r: char)
    ensures !IsUpper(r)
    ensures IsUpper(c) ==> r != c
    ensures !IsUpper(c) ==> r == c
  {
    if IsUpper(c) then (c as int + 32) as char else c
  }

  function Lower(s: string): (r: string)
    ensures |r| == |s|
    ensures forall k :: 0 <= k < |s| ==> r[k] == LowerChar(s[k])
  {
    seq(|s|, k requires 0 <= k < |s| => LowerChar(s[k]))
  }

  /** The characters `str.isspace` accepts, for which `str.strip` with no
      argument removes: the ASCII white space with the four separators
      \x1c-\x1f, and the Unicode spaces and line and paragraph separators. */
  predicate IsSpace(c: char)
  {
    ('\U{09}' <= c <= '\U{0D}') || ('\U{1C}' <= c <= '\U{20}') || c == '\U{85}' || c == '\U{A0}' ||
    c == '\U{1680}' || ('\U{2000}' <= c <= '\U{200A}') || c == '\U{2028}' || c == '\U{2029}' ||
    c == '\U{202F}' || c == '\U{205F}' || c == '\U{3000}'
  }

  /** `str.strip` with no argument. */
  function Strip(s: string): (r: string)
    ensures |r| <= |s|
    ensures r != "" ==> !IsSpace(r[0]) && !IsSpace(r[|r| - 1])
    decreases |s|
  {
    if |s| > 0 && IsSpace(s[0]) then Strip(s[1..])
    else if |s| > 0 && IsSpace(s[|s| - 1]) then Strip(s[..|s| - 1])
    else s
  }

  predicate AllSpace(s: string)
  {
    forall k :: 0 <= k < |s| ==> IsSpace(s[k])
  }

  /** `r` is `s` without the white space runs `s[..i]` and `s[j..]`. */
  predicate StrippedAt(s: string, r: string, i: nat, j: nat)
  {
    i <= j <= |s| && r == s[i..j] && AllSpace(s[..i]) && AllSpace(s[j..])
  }

  lemma StrippedAfterFront(s: string, r: string, i: nat, j: nat)
    requires |s| > 0 && IsSpace(s[0]) && StrippedAt(s[1..], r, i, j)
    ensures StrippedAt(s, r, i + 1, j + 1)
  {
    var t := s[1..];
    assert s[..i + 1] == [s[0]] + t[..i];
    assert s[j + 1..] == t[j..];
    assert t[i..j] == s[i + 1..j + 1];
  }

  lemma StrippedAfterBack(s: string, r: string, i: nat, j: nat)
    requires |s| > 0 && IsSpace(s[|s| - 1]) && StrippedAt(s[..|s| - 1], r, i, j)
    ensures StrippedAt(s, r, i, j)
  {
    var p := s[..|s| - 1];
    assert s[..i] == p[..i];
    assert s[j..] == p[j..] + [s[|s| - 1]];
    assert p[i..j] == s[i..j];
  }

  /** The stripped text is what is left of `s` between a run of white space
      at its start and one at its end. */
  lemma {:induction false} StripSpec(s: string)
    ensures exists i: nat, j: nat :: StrippedAt(s, Strip(s), i, j)
    decreases |s|
  {
    if |s| > 0 && IsSpace(s[0]) {
      StripSpec(s[1..]);
      var i: nat, j: nat :| StrippedAt(s[1..], Strip(s[1..]), i, j);
      StrippedAfterFront(s, Strip(s), i, j);
    } else if |s| > 0 && IsSpace(s[|s| - 1]) {
      StripSpec(s[..|s| - 1]);
      var i: nat, j: nat :| StrippedAt(s[..|s| - 1], Strip(s[..|s| - 1]), i, j);
      StrippedAfterBack(s, Strip(s), i, j);
    } else {
      assert StrippedAt(s, Strip(s), 0, |s|);
    }
  }

  predicate StartsWith(s: string, prefix: string)
  {
    |prefix| <= |s| && s[..|prefix|] == prefix
  }

  predicate EndsWith(s: string, suffix: string)
  {
    |suffix| <= |s| && s[|s| - |suffix|..] == suffix
  }

  predicate OccursAt(s: string, p: string, i: int)
  {
    0 <= i <= |s| - |p| && s[i..i + |p|] == p
  }

  /** Python's `p in s` on strings: `p` occurs somewhere in `s`. */
  predicate Contains(s: string, p: string)
  {
    exists i | 0 <= i <= |s| - |p| :: OccursAt(s, p, i)
  }

  /** The last dot of `a + b` is in `b` when `b` has a dot. */
  lemma {:induction false} LastIndexOfAppend(a: string, b: string, c: char)
    requires LastIndexOf(b, c) >= 0
    ensures LastIndexOf(a + b, c) == |a| + LastIndexOf(b, c)
  {
    var i := LastIndexOf(b, c);
    var j := LastIndexOf(a + b, c);
    assert (a + b)[|a| + i] == c;
    forall k | |a| + i < k < |a + b| ensures (a + b)[k] != c {
      assert (a + b)[k] == b[k - |a|];
    }
  }

  /** A dot that starts `b`, followed by no other dot, is the last dot of `a + b`. */
  lemma {:induction false} LastDotOfDottedTail(a: string, b: string)
    requires |b| >= 1 && b[0] == '.' && forall k :: 1 <= k < |b| ==> b[k] != '.'
    ensures LastIndexOf(a + b, '.') == |a|
  {
    assert LastIndexOf(b, '.') == 0;
    LastIndexOfAppend(a, b, '.');
  }

  // ---------------------------------------------------------------------------
  // Listing order. A directory listing is modelled as the names in ascending
  // code-point order.

  predicate LexLe(a: string, b: string)
    decreases |a|
  {
    |a| == 0 || (|b| > 0 && (a[0] < b[0] || (a[0] == b[0] && LexLe(a[1..], b[1..]))))
  }

  lemma {:induction false} LexLeTotal(a: string, b: string)
    ensures LexLe(a, b) || LexLe(b, a)
    decreases |a|
  {
    if |a| > 0 && |b| > 0 && a[0] == b[0] {
      LexLeTotal(a[1..], b[1..]);
    }
  }

  lemma {:induction false} LexLeAntisymmetric(a: string, b: string)
    requires LexLe(a, b) && LexLe(b, a)
    ensures a == b
    decreases |a|
  {
    if |a| > 0 {
      LexLeAntisymmetric(a[1..], b[1..]);
      assert a == [a[0]] + a[1..];
      assert b == [b[0]] + b[1..];
    }
  }

  lemma {:induction false} LexLeTransitive(a: string, b: string, c: string)
    requires LexLe(a, b) && LexLe(b, c)
    ensures LexLe(a, c)
    decreases |a|
  {
    if |a| > 0 && a[0] == b[0] && b[0] == c[0] {
      LexLeTransitive(a[1..], b[1..], c[1..]);
    }
  }

  predicate IsLeast(m: string, s: set<string>)
  {
    m in s && forall y :: y in s ==> LexLe(m, y)
  }

  lemma {:induction false} LeastExists(s: set<string>)
    requires s != {}
    ensures exists m :: IsLeast(m, s)
    decreases |s|
  {
    var x :| x in s;
    if s - {x} == {} {
      assert s == {x};
      assert LexLe(x, x) by { LexLeTotal(x, x); }
      assert IsLeast(x, s);
    } else {
      LeastExists(s - {x});
      var m :| IsLeast(m, s - {x});
      LexLeTotal(m, x);
      if LexLe(m, x) {
        assert IsLeast(m, s);
      } else {
        forall y | y in s ensures LexLe(x, y) {
          if y != x { LexLeTransitive(x, m, y); } else { LexLeTotal(x, x); }
        }
        assert IsLeast(x, s);
      }
    }
  }

  lemma LeastUnique(s: set<string>)
    ensures forall m1, m2 :: IsLeast(m1, s) && IsLeast(m2, s) ==> m1 == m2
  {
    forall m1, m2 | IsLeast(m1, s) && IsLeast(m2, s) ensures m1 == m2 {
      LexLeAntisymmetric(m1, m2);
    }
  }

  /** The names of a directory in listing order. */
  function Listing(s: set<string>): (r: seq<string>)
    ensures |r| == |s|
    decreases |s|
  {
    if s == {} then []
    else
      LeastExists(s);
      LeastUnique(s);
      var m :| IsLeast(m, s);
      [m] + Listing(s - {m})
  }

  /** A listing holds every name of the directory, each exactly once. */
  lemma {:induction false} ListingSpec(s: set<string>)
    ensures forall x :: x in Listing(s) <==> x in s
    ensures forall i, j :: 0 <= i < j < |Listing(s)| ==> Listing(s)[i] != Listing(s)[j]
    decreases |s|
  {
    if s != {} {
      LeastExists(s);
      LeastUnique(s);
      var m :| IsLeast(m, s);
      ListingSpec(s - {m});
      assert Listing(s) == [m] + Listing(s - {m});
    }
  }

  /** Each name of a listing is listed once: the names after position `i`
      exclude the one at `i`. */
  lemma ListingTail(s: set<string>, i: nat)
    requires i < |Listing(s)|
    ensures Listing(s)[i] in s
    ensures Listing(s)[i] !in Listing(s)[i + 1..]
  {
    ListingSpec(s);
  }
}
