/**
 * The java.lang.String and java.util.stream operations the chat core relies on:
 * trim(), isEmpty() after trim(), String.join, split with and without a limit,
 * compareTo, and the distinct().sorted() pipeline over names. A string is a
 * sequence of code points, so these follow the Java library except where it
 * counts or compares UTF-16 units (characters outside the Basic Multilingual
 * Plane).
 */
module JavaText {

  // ---------------------------------------------------------------------------
  // trim()
  // ---------------------------------------------------------------------------

  /** String.trim() strips every character whose code is at most U+0020. */
  predicate IsSpace(c: char) {
    c <= ' '
  }

  predicate AllSpace(s: string) {
    forall i :: 0 <= i < |s| ==> IsSpace(s[i])
  }

  /** A string that trim() leaves as it is: empty, or framed by non-space characters. */
  predicate IsTrimmed(s: string) {
    s == [] || (!IsSpace(s[0]) && !IsSpace(s[|s| - 1]))
  }

  /** Index of the first character trim() keeps (|s| when there is none). */
  function TrimStart(s: string): (k: nat)
    ensures k <= |s|
    ensures forall i :: 0 <= i < k ==> IsSpace(s[i])
    ensures k < |s| ==> !IsSpace(s[k])
    decreases |s|
  {
    if |s| > 0 && IsSpace(s[0]) then 1 + TrimStart(s[1..]) else 0
  }

  /** End of the kept part: trim() walks back from the end but never past `lo`. */
  function TrimEnd(s: string, lo: nat): (e: nat)
    requires lo <= |s|
    ensures lo <= e <= |s|
    ensures forall i :: e <= i < |s| ==> IsSpace(s[i])
    ensures e > lo ==> !IsSpace(s[e - 1])
    decreases |s|
  {
    if |s| > lo && IsSpace(s[|s| - 1]) then TrimEnd(s[..|s| - 1], lo) else |s|
  }

  function Trim(s: string): (t: string)
    ensures |t| <= |s|
    ensures t == [] <==> AllSpace(s)
    ensures IsTrimmed(t)
  {
    var k := TrimStart(s);
    s[k..TrimEnd(s, k)]
  }

  /** `s.trim().isEmpty()` */
  predicate IsBlank(s: string) {
    Trim(s) == []
  }

  /** trim() removes exactly the spaces around a trimmed core: it is fully
      determined by this equation. */
  lemma TrimPadded(pre: string, t: string, post: string)
    requires AllSpace(pre) && AllSpace(post) && IsTrimmed(t)
    ensures Trim(pre + t + post) == t
  {
    var s := pre + t + post;
    if t == [] {
      assert forall i :: 0 <= i < |s| ==> IsSpace(s[i]) by {
        forall i | 0 <= i < |s| ensures IsSpace(s[i]) {
          if i < |pre| { assert s[i] == pre[i]; } else { assert s[i] == post[i - |pre|]; }
        }
      }
    } else {
      assert forall i :: 0 <= i < |pre| ==> s[i] == pre[i];
      assert forall i :: |pre| + |t| <= i < |s| ==> s[i] == post[i - |pre| - |t|];
      var k := TrimStart(s);
      assert s[|pre|] == t[0];
      assert k == |pre|;
      var e := TrimEnd(s, k);
      assert s[|pre| + |t| - 1] == t[|t| - 1];
      assert e == |pre| + |t|;
      assert s[k..e] == t;
    }
  }

  lemma TrimOfTrimmed(t: string)
    requires IsTrimmed(t)
    ensures Trim(t) == t
  {
    TrimPadded("", t, "");
    assert "" + t + "" == t;
  }

  lemma TrimIdempotent(s: string)
    ensures Trim(Trim(s)) == Trim(s)
  {
    TrimOfTrimmed(Trim(s));
  }

  // ---------------------------------------------------------------------------
  // String.join and String.split
  // ---------------------------------------------------------------------------

  /** String.join(sep, parts) */
  function Join(parts: seq<string>, sep: char): string
    decreases |parts|
  {
    if |parts| == 0 then ""
    else if |parts| == 1 then parts[0]
    else parts[0] + [sep] + Join(parts[1..], sep)
  }

  lemma JoinConsHead(c: char, x: string, xs: seq<string>, sep: char)
    ensures Join([[c] + x] + xs, sep) == [c] + Join([x] + xs, sep)
  {
    var l := [[c] + x] + xs;
    var r := [x] + xs;
    assert l[1..] == xs && r[1..] == xs;
  }

  /** Every piece between separators, empty pieces included: split with a negative limit. */
  function SplitAll(s: string, sep: char): (parts: seq<string>)
    ensures |parts| >= 1
    ensures forall i :: 0 <= i < |parts| ==> sep !in parts[i]
    decreases |s|
  {
    if s == [] then [""]
    else
      var rest := SplitAll(s[1..], sep);
      if s[0] == sep then [""] + rest else [[s[0]] + rest[0]] + rest[1..]
  }

  lemma {:induction false} JoinSplitAll(s: string, sep: char)
    ensures Join(SplitAll(s, sep), sep) == s
    decreases |s|
  {
    if s != [] {
      var rest := SplitAll(s[1..], sep);
      JoinSplitAll(s[1..], sep);
      if s[0] == sep {
        var l := [""] + rest;
        assert l[1..] == rest;
        assert s == [sep] + s[1..];
      } else {
        JoinConsHead(s[0], rest[0], rest[1..], sep);
        assert [rest[0]] + rest[1..] == rest;
        assert s == [s[0]] + s[1..];
      }
    }
  }

  lemma {:induction false} SplitAllNoSeparator(a: string, sep: char)
    requires sep !in a
    ensures SplitAll(a, sep) == [a]
    decreases |a|
  {
    if a != [] {
      SplitAllNoSeparator(a[1..], sep);
      assert [a[0]] + a[1..] == a;
    }
  }

  lemma {:induction false} SplitAllAfterPiece(a: string, b: string, sep: char)
    requires sep !in a
    ensures SplitAll(a + [sep] + b, sep) == [a] + SplitAll(b, sep)
    decreases |a|
  {
    var s := a + [sep] + b;
    if a == [] {
      assert s[0] == sep && s[1..] == b;
    } else {
      assert s[0] == a[0] && s[1..] == a[1..] + [sep] + b;
      SplitAllAfterPiece(a[1..], b, sep);
      assert [a[0]] + a[1..] == a;
    }
  }

  /** Splitting a join of separator-free pieces gives the pieces back. */
  lemma {:induction false} SplitAllJoin(xs: seq<string>, sep: char)
    requires |xs| >= 1
    requires forall i :: 0 <= i < |xs| ==> sep !in xs[i]
    ensures SplitAll(Join(xs, sep), sep) == xs
    decreases |xs|
  {
    if |xs| == 1 {
      SplitAllNoSeparator(xs[0], sep);
    } else {
      SplitAllAfterPiece(xs[0], Join(xs[1..], sep), sep);
      SplitAllJoin(xs[1..], sep);
      assert [xs[0]] + xs[1..] == xs;
    }
  }

  /** `s.split(sep, limit)` with a positive limit: at most `limit` pieces, the
      last one keeping every further separator. */
  function SplitLimit(s: string, sep: char, limit: nat): (parts: seq<string>)
    requires limit >= 1
    ensures 1 <= |parts| <= limit
    ensures Join(parts, sep) == s
    ensures forall i :: 0 <= i < |parts| - 1 ==> sep !in parts[i]
    ensures |parts| < limit ==> sep !in parts[|parts| - 1]
    decreases |s|
  {
    if limit == 1 || s == [] then [s]
    else if s[0] == sep then
      var rest := SplitLimit(s[1..], sep, limit - 1);
      var parts := [""] + rest;
      assert parts[1..] == rest && s == [sep] + s[1..];
      parts
    else
      var rest := SplitLimit(s[1..], sep, limit);
      var parts := [[s[0]] + rest[0]] + rest[1..];
      JoinConsHead(s[0], rest[0], rest[1..], sep);
      assert [rest[0]] + rest[1..] == rest && s == [s[0]] + s[1..];
      parts
  }

  /** The pieces before the first separator and the rest. */
  lemma {:induction false} SplitLimitAfterPiece(a: string, b: string, sep: char, limit: nat)
    requires limit >= 2 && sep !in a
    ensures SplitLimit(a + [sep] + b, sep, limit) == [a] + SplitLimit(b, sep, limit - 1)
    decreases |a|
  {
    var s := a + [sep] + b;
    if a == [] {
      assert s[0] == sep && s[1..] == b;
    } else {
      assert s[0] == a[0] && s[1..] == a[1..] + [sep] + b;
      SplitLimitAfterPiece(a[1..], b, sep, limit);
      assert [a[0]] + a[1..] == a;
    }
  }

  /** `s.split(sep)`: like SplitAll, but trailing empty pieces are dropped
      whenever the separator occurs at all; without it the string itself is the
      only piece (so "" splits into [""]). */
  function Split(s: string, sep: char): (parts: seq<string>)
    ensures forall i :: 0 <= i < |parts| ==> sep !in parts[i]
    ensures sep !in s ==> parts == [s]
    ensures sep in s ==> parts == [] || parts[|parts| - 1] != ""
    ensures sep in s ==> parts <= SplitAll(s, sep)
    ensures sep in s ==> forall i :: |parts| <= i < |SplitAll(s, sep)| ==> SplitAll(s, sep)[i] == ""
  {
    if sep !in s then [s] else DropTrailingEmpty(SplitAll(s, sep))
  }

  function DropTrailingEmpty(xs: seq<string>): (r: seq<string>)
    ensures r <= xs
    ensures r == [] || r[|r| - 1] != ""
    ensures forall i :: |r| <= i < |xs| ==> xs[i] == ""
    decreases |xs|
  {
    if xs == [] || xs[|xs| - 1] != "" then xs else DropTrailingEmpty(xs[..|xs| - 1])
  }

  // ---------------------------------------------------------------------------
  // compareTo and stream().distinct().sorted()
  // ---------------------------------------------------------------------------

  /** `a.compareTo(b) < 0`: the first differing character decides, otherwise
      the shorter string comes first. */
  predicate Before(a: string, b: string)
    decreases |a|
  {
    if a == [] then b != []
    else if b == [] then false
    else if a[0] != b[0] then a[0] < b[0]
    else Before(a[1..], b[1..])
  }

  lemma {:induction false} BeforeIrreflexive(a: string)
    ensures !Before(a, a)
    decreases |a|
  {
    if a != [] { BeforeIrreflexive(a[1..]); }
  }

  lemma {:induction false} BeforeAsymmetric(a: string, b: string)
    ensures Before(a, b) ==> !Before(b, a)
    decreases |a|
  {
    if a != [] && b != [] && a[0] == b[0] { BeforeAsymmetric(a[1..], b[1..]); }
  }

  lemma {:induction false} BeforeTransitive(a: string, b: string, c: string)
    requires Before(a, b) && Before(b, c)
    ensures Before(a, c)
    decreases |a|
  {
    if a != [] && a[0] == b[0] && b[0] == c[0] { BeforeTransitive(a[1..], b[1..], c[1..]); }
  }

  lemma {:induction false} BeforeTotal(a: string, b: string)
    ensures a == b || Before(a, b) || Before(b, a)
    decreases |a|
  {
    if a != [] && b != [] && a[0] == b[0] {
      BeforeTotal(a[1..], b[1..]);
      assert a == [a[0]] + a[1..] && b == [b[0]] + b[1..];
    }
  }

  /** Strictly ascending in compareTo order: sorted and free of duplicates. */
  predicate Ascending(xs: seq<string>) {
    forall i, j :: 0 <= i < j < |xs| ==> Before(xs[i], xs[j])
  }

  lemma AscendingHeadFirst(xs: seq<string>, y: string)
    requires Ascending(xs) && |xs| > 0 && y in xs[1..]
    ensures Before(xs[0], y)
  {
    var k :| 0 <= k < |xs[1..]| && xs[1..][k] == y;
    assert xs[k + 1] == y;
  }

  /** Adds `x` to an ascending list unless it is already there. */
  function Insert(xs: seq<string>, x: string): (r: seq<string>)
    requires Ascending(xs)
    ensures Ascending(r)
    ensures forall y :: y in r <==> y in xs || y == x
    decreases |xs|
  {
    if xs == [] then [x]
    else if x == xs[0] then xs
    else if Before(x, xs[0]) then
      assert Ascending([x] + xs) by {
        forall j | 0 <= j < |xs| ensures Before(x, xs[j]) {
          if j > 0 { BeforeTransitive(x, xs[0], xs[j]); }
        }
      }
      [x] + xs
    else
      var rest := Insert(xs[1..], x);
      assert Ascending([xs[0]] + rest) by {
        BeforeTotal(x, xs[0]);
        forall j | 0 <= j < |rest| ensures Before(xs[0], rest[j]) {
          assert rest[j] in rest;
          if rest[j] != x { AscendingHeadFirst(xs, rest[j]); }
        }
      }
      assert xs == [xs[0]] + xs[1..];
      [xs[0]] + rest
  }

  /** `stream().distinct().sorted()` over strings. */
  function SortedDistinct(xs: seq<string>): (r: seq<string>)
    ensures Ascending(r)
    ensures forall y :: y in r <==> y in xs
    decreases |xs|
  {
    if xs == [] then []
    else
      assert xs == xs[..|xs| - 1] + [xs[|xs| - 1]];
      Insert(SortedDistinct(xs[..|xs| - 1]), xs[|xs| - 1])
  }

  lemma HeadIsMember(b: seq<string>)
    requires b != []
    ensures b[0] in b
  {
  }

  lemma NothingInEmpty(b: seq<string>)
    requires forall y :: y !in b
    ensures b == []
  {
    if b != [] {
      HeadIsMember(b);
    }
  }

  lemma AscendingTail(xs: seq<string>)
    requires Ascending(xs) && xs != []
    ensures Ascending(xs[1..])
  {
    forall i, j | 0 <= i < j < |xs[1..]| ensures Before(xs[1..][i], xs[1..][j]) {
      assert xs[1..][i] == xs[i + 1] && xs[1..][j] == xs[j + 1];
    }
  }

  lemma MemberOfCons(xs: seq<string>, y: string)
    requires xs != []
    ensures y in xs <==> y == xs[0] || y in xs[1..]
  {
    assert xs == [xs[0]] + xs[1..];
  }

  /** Two ascending lists with the same members start with the same string. */
  lemma AscendingSameHead(a: seq<string>, b: seq<string>)
    requires Ascending(a) && Ascending(b) && a != [] && b != []
    requires forall y :: y in a <==> y in b
    ensures a[0] == b[0]
  {
    if a[0] != b[0] {
      HeadIsMember(a);
      HeadIsMember(b);
      MemberOfCons(b, a[0]);
      MemberOfCons(a, b[0]);
      AscendingHeadFirst(b, a[0]);
      AscendingHeadFirst(a, b[0]);
      BeforeAsymmetric(a[0], b[0]);
      assert false;
    }
  }

  /** Two ascending lists with the same members and the same head have tails
      with the same members. */
  lemma AscendingSameTail(a: seq<string>, b: seq<string>)
    requires Ascending(a) && Ascending(b) && a != [] && b != [] && a[0] == b[0]
    requires forall y :: y in a <==> y in b
    ensures forall y :: y in a[1..] <==> y in b[1..]
  {
    forall y ensures y in a[1..] ==> y in b[1..] {
      if y in a[1..] {
        AscendingHeadFirst(a, y);
        BeforeIrreflexive(y);
        MemberOfCons(a, y);
        MemberOfCons(b, y);
      }
    }
    forall y ensures y in b[1..] ==> y in a[1..] {
      if y in b[1..] {
        AscendingHeadFirst(b, y);
        BeforeIrreflexive(y);
        MemberOfCons(a, y);
        MemberOfCons(b, y);
      }
    }
  }

  /** There is only one strictly ascending list of a given set of strings, so
      the sorted, duplicate-free list does not depend on how it was built. */
  lemma {:induction false} AscendingUnique(a: seq<string>, b: seq<string>)
    requires Ascending(a) && Ascending(b)
    requires forall y :: y in a <==> y in b
    ensures a == b
    decreases |a|
  {
    if a == [] {
      NothingInEmpty(b);
    } else if b == [] {
      NothingInEmpty(a);
    } else {
      AscendingSameHead(a, b);
      AscendingSameTail(a, b);
      AscendingTail(a);
      AscendingTail(b);
      AscendingUnique(a[1..], b[1..]);
      assert a == [a[0]] + a[1..] && b == [b[0]] + b[1..];
    }
  }

  // ---------------------------------------------------------------------------
  // Integer.toString
  // ---------------------------------------------------------------------------

  function DigitChar(d: nat): char
    requires d < 10
  {
    ('0' as int + d) as char
  }

  function Digits(n: nat): (r: string)
    ensures |r| >= 1
    ensures forall i :: 0 <= i < |r| ==> '0' <= r[i] <= '9'
    decreases n
  {
    if n < 10 then [DigitChar(n)] else Digits(n / 10) + [DigitChar(n % 10)]
  }

  /** Integer.toString(n) (and `"" + n`). */
  function Decimal(n: int): string {
    if n < 0 then "-" + Digits(-n) else Digits(n)
  }
}
