/** Python string operations used throughout the backend, on `seq<char>`.
    Each function follows the CPython definition of the method it is named after. */
module Strings {

  predicate StartsWith(s: string, p: string) {
    |p| <= |s| && s[..|p|] == p
  }

  predicate EndsWith(s: string, x: string) {
    |x| <= |s| && s[|s| - |x|..] == x
  }

  /** `sub` occurs in `s` starting at index `j`. */
  predicate OccursAt(s: string, sub: string, j: nat) {
    j + |sub| <= |s| && s[j..j + |sub|] == sub
  }

  /** `sub in s` for strings. */
  predicate Contains(s: string, sub: string) {
    exists j: nat :: j <= |s| && OccursAt(s, sub, j)
  }

  /** `s.find(sub, from)`: the first index at or after `from` where `sub` occurs, or -1. */
  function FindFrom(s: string, sub: string, from: nat): (i: int)
    requires from <= |s|
    ensures i == -1 || (from <= i && OccursAt(s, sub, i))
    ensures forall j: nat :: from <= j && (i == -1 || j < i) ==> !OccursAt(s, sub, j)
    decreases |s| - from
  {
    if from + |sub| > |s| then -1
    else if s[from..from + |sub|] == sub then from
    else FindFrom(s, sub, from + 1)
  }

  /** `s.find(sub)`: the index of the first occurrence of `sub`, or -1. */
  function Find(s: string, sub: string): (i: int)
    ensures i == -1 || (0 <= i && OccursAt(s, sub, i))
    ensures forall j: nat :: i == -1 || j < i ==> !OccursAt(s, sub, j)
    ensures i == -1 <==> !Contains(s, sub)
  {
    FindFrom(s, sub, 0)
  }

  lemma ContainsChar(s: string, c: char)
    ensures Contains(s, [c]) <==> c in s
  {
    if c in s {
      var j :| 0 <= j < |s| && s[j] == c;
      assert OccursAt(s, [c], j);
    }
    if Contains(s, [c]) {
      var j: nat :| j <= |s| && OccursAt(s, [c], j);
      assert s[j] == s[j..j + 1][0];
    }
  }

  /** A string holding `a + b` holds `a`. */
  lemma ContainsPrefixOf(s: string, a: string, b: string)
    requires Contains(s, a + b)
    ensures Contains(s, a)
  {
    var j: nat :| j <= |s| && OccursAt(s, a + b, j);
    assert s[j..j + |a|] == (a + b)[..|a|];
    assert OccursAt(s, a, j);
  }

  /** An occurrence in the tail of `s` is an occurrence in `s` one place later. */
  lemma OccursInTail(s: string, sub: string, j: nat)
    requires |s| >= 1
    ensures OccursAt(s[1..], sub, j) <==> OccursAt(s, sub, j + 1)
  {
    if j + 1 + |sub| <= |s| {
      assert s[1..][j..j + |sub|] == s[j + 1..j + 1 + |sub|];
    }
  }

  /** An occurrence in a prefix of `s` is an occurrence in `s`. */
  lemma OccursInPrefix(s: string, sub: string, k: nat, j: nat)
    requires k <= |s|
    requires OccursAt(s[..k], sub, j)
    ensures OccursAt(s, sub, j)
  {
    assert s[..k][j..j + |sub|] == s[j..j + |sub|];
  }

  /** `s.find(c, from)` for one character: the first index at or after `from` holding `c`, or -1. */
  function IndexOfFrom(s: string, c: char, from: nat): (i: int)
    requires from <= |s|
    ensures i == -1 || (from <= i < |s| && s[i] == c)
    ensures forall j :: from <= j < |s| && (i == -1 || j < i) ==> s[j] != c
    decreases |s| - from
  {
    if from == |s| then -1
    else if s[from] == c then from
    else IndexOfFrom(s, c, from + 1)
  }

  /** `s.find(c)` for one character. */
  function IndexOf(s: string, c: char): (i: int)
    ensures i == -1 <==> c !in s
    ensures i >= 0 ==> i < |s| && s[i] == c && c !in s[..i]
  {
    IndexOfFrom(s, c, 0)
  }

  /** The first `c` after a prefix that holds none is the one right after the prefix. */
  lemma IndexOfAfter(a: string, c: char, b: string)
    requires c !in a
    ensures IndexOf(a + [c] + b, c) == |a|
  {
    var s := a + [c] + b;
    assert s[|a|] == c;
  }

  /** `s.rfind(c)` for one character: the last index of `c`, or -1. */
  function RFind(s: string, c: char): (i: int)
    ensures -1 <= i < |s|
    ensures i >= 0 ==> s[i] == c && forall j :: i < j < |s| ==> s[j] != c
    ensures i == -1 ==> c !in s
  {
    if |s| == 0 then -1
    else if s[|s| - 1] == c then |s| - 1
    else RFind(s[..|s| - 1], c)
  }

  /** `s.replace(pat, rep)`: every non-overlapping occurrence, scanned from the left. */
  function ReplaceAll(s: string, pat: string, rep: string): (r: string)
    requires pat != ""
    ensures forall c :: c in r ==> c in s || c in rep
    ensures !Contains(s, pat) ==> r == s
    decreases |s|
  {
    if |s| < |pat| then s
    else if s[..|pat|] == pat then
      assert OccursAt(s, pat, 0);
      rep + ReplaceAll(s[|pat|..], pat, rep)
    else
      var rest := ReplaceAll(s[1..], pat, rep);
      assert !Contains(s, pat) ==> !Contains(s[1..], pat) by {
        if Contains(s[1..], pat) {
          var j: nat :| OccursAt(s[1..], pat, j);
          OccursInTail(s, pat, j);
        }
      }
      [s[0]] + rest
  }

  /** Replacing one character by another leaves none of the first. */
  lemma {:induction false} ReplaceCharRemoves(s: string, a: char, b: char)
    requires a != b
    ensures a !in ReplaceAll(s, [a], [b])
    decreases |s|
  {
    if |s| >= 1 {
      if s[..1] == [a] {
        ReplaceCharRemoves(s[1..], a, b);
      } else {
        ReplaceCharRemoves(s[1..], a, b);
      }
    }
  }

  /** Replacing one character by another keeps the length. */
  lemma {:induction false} ReplaceCharLength(s: string, a: char, b: char)
    ensures |ReplaceAll(s, [a], [b])| == |s|
    decreases |s|
  {
    if |s| >= 1 {
      ReplaceCharLength(s[1..], a, b);
    }
  }

  /** Removing a pattern never lengthens a string, and shortens one that holds it. */
  lemma {:induction false} ReplaceRemoveShorter(s: string, pat: string)
    requires pat != ""
    ensures |ReplaceAll(s, pat, "")| <= |s|
    ensures Contains(s, pat) ==> |ReplaceAll(s, pat, "")| < |s|
    decreases |s|
  {
    if |s| >= |pat| {
      if s[..|pat|] == pat {
        ReplaceRemoveShorter(s[|pat|..], pat);
      } else {
        ReplaceRemoveShorter(s[1..], pat);
        if Contains(s, pat) {
          var j: nat :| j <= |s| && OccursAt(s, pat, j);
          assert j != 0;
          OccursInTail(s, pat, j - 1);
        }
      }
    }
  }

  /** Replacing one character by another is a character-by-character map. */
  lemma {:induction false} ReplaceCharIsMap(s: string, a: char, b: char)
    ensures ReplaceAll(s, [a], [b]) == seq(|s|, i requires 0 <= i < |s| => if s[i] == a then b else s[i])
    decreases |s|
  {
    if |s| >= 1 {
      ReplaceCharIsMap(s[1..], a, b);
    }
  }

  /** `"".join` with a separator. */
  function Join(parts: seq<string>, sep: string): string
    decreases |parts|
  {
    if |parts| == 0 then ""
    else if |parts| == 1 then parts[0]
    else parts[0] + sep + Join(parts[1..], sep)
  }

  /** `s.split(sep)` for a non-empty separator. */
  function SplitStr(s: string, sep: string): (r: seq<string>)
    requires sep != ""
    ensures |r| >= 1
    ensures forall k :: 0 <= k < |r| ==> !Contains(r[k], sep)
    decreases |s|
  {
    var i := Find(s, sep);
    if i < 0 then [s]
    else
      FirstPieceHasNoSep(s, sep);
      [s[..i]] + SplitStr(s[i + |sep|..], sep)
  }

  /** The text before the first separator holds no separator. */
  lemma FirstPieceHasNoSep(s: string, sep: string)
    requires sep != ""
    requires Find(s, sep) >= 0
    ensures !Contains(s[..Find(s, sep)], sep)
  {
    var i := Find(s, sep);
    if Contains(s[..i], sep) {
      var j: nat :| j <= i && OccursAt(s[..i], sep, j);
      OccursInPrefix(s, sep, i, j);
    }
  }

  lemma JoinCons(head: string, tail: seq<string>, sep: string)
    requires |tail| >= 1
    ensures Join([head] + tail, sep) == head + sep + Join(tail, sep)
  {
    assert ([head] + tail)[1..] == tail;
  }

  /** Joining with one more part at the end appends the separator and that part. */
  lemma {:induction false} JoinSnoc(parts: seq<string>, last: string, sep: string)
    ensures Join(parts + [last], sep) == if parts == [] then last else Join(parts, sep) + sep + last
    decreases |parts|
  {
    if |parts| >= 2 {
      assert (parts + [last])[1..] == parts[1..] + [last];
      JoinSnoc(parts[1..], last, sep);
    } else if |parts| == 1 {
      assert (parts + [last])[1..] == [last];
    }
  }

  /** Merging the last two parts with the separator keeps the joined text. */
  lemma {:induction false} JoinMergeLast(parts: seq<string>, sep: string)
    requires |parts| >= 2
    ensures Join(parts[..|parts| - 2] + [parts[|parts| - 2] + sep + parts[|parts| - 1]], sep) == Join(parts, sep)
    decreases |parts|
  {
    var n := |parts|;
    var merged := parts[n - 2] + sep + parts[n - 1];
    if n == 2 {
      assert parts[..0] + [merged] == [merged];
      assert parts[1..] == [parts[1]];
    } else {
      var tail := parts[1..];
      JoinMergeLast(tail, sep);
      assert (parts[..n - 2] + [merged])[1..] == tail[..|tail| - 2] + [tail[|tail| - 2] + sep + tail[|tail| - 1]];
    }
  }

  /** Extending the last part by the separator and a new part, or adding the new part after
      it, joins to the same text. */
  lemma JoinExtendLast(parts: seq<string>, current: string, para: string, sep: string)
    ensures Join(parts + [current + sep + para], sep) == Join(parts + [current], sep) + sep + para
    ensures Join(parts + [current] + [para], sep) == Join(parts + [current], sep) + sep + para
  {
    JoinGrowLast(parts, current, para, sep);
    JoinSnoc(parts + [current], para, sep);
  }

  lemma JoinGrowLast(parts: seq<string>, current: string, para: string, sep: string)
    ensures Join(parts + [current + sep + para], sep) == Join(parts + [current], sep) + sep + para
  {
    JoinSnoc(parts, current + sep + para, sep);
    JoinSnoc(parts, current, sep);
    if parts != [] {
      ConcatRegroup(Join(parts, sep), sep, current, para);
    }
  }

  lemma ConcatRegroup(a: string, sep: string, b: string, c: string)
    ensures a + sep + (b + sep + c) == a + sep + b + sep + c
  {
  }

  /** Splitting and joining again with the same separator gives the string back. */
  lemma {:induction false} JoinSplit(s: string, sep: string)
    requires sep != ""
    ensures Join(SplitStr(s, sep), sep) == s
    decreases |s|
  {
    var i := Find(s, sep);
    if i >= 0 {
      var rest := s[i + |sep|..];
      JoinSplit(rest, sep);
      SplitStrStep(s, sep);
      JoinCons(s[..i], SplitStr(rest, sep), sep);
      AroundOccurrence(s, sep, i);
    }
  }

  lemma SplitStrStep(s: string, sep: string)
    requires sep != "" && Find(s, sep) >= 0
    ensures SplitStr(s, sep) == [s[..Find(s, sep)]] + SplitStr(s[Find(s, sep) + |sep|..], sep)
  {
  }

  lemma AroundOccurrence(s: string, sub: string, i: nat)
    requires OccursAt(s, sub, i)
    ensures s == s[..i] + sub + s[i + |sub|..]
  {
    assert s[i..i + |sub|] == sub;
    assert s == s[..i] + s[i..i + |sub|] + s[i + |sub|..];
  }

  /** A string that does not contain the separator is its own single piece. */
  lemma SplitWithoutSep(s: string, sep: string)
    requires sep != ""
    requires !Contains(s, sep)
    ensures SplitStr(s, sep) == [s]
  {
  }

  /** Python's `str.isspace` for one character. */
  predicate IsSpace(c: char) {
    c == ' ' || ('\t' <= c <= '\r') || ('\U{1c}' <= c <= '\U{1f}') || c == '\U{85}' || c == '\U{a0}'
    || c == '\U{1680}' || ('\U{2000}' <= c <= '\U{200a}') || c == '\U{2028}' || c == '\U{2029}'
    || c == '\U{202f}' || c == '\U{205f}' || c == '\U{3000}'
  }

  function LStrip(s: string): (r: string)
    ensures |r| <= |s| && r == s[|s| - |r|..]
    ensures r == [] || !IsSpace(r[0])
    ensures forall j :: 0 <= j < |s| - |r| ==> IsSpace(s[j])
  {
    if |s| > 0 && IsSpace(s[0]) then LStrip(s[1..]) else s
  }

  function RStrip(s: string): (r: string)
    ensures |r| <= |s| && r == s[..|r|]
    ensures r == [] || !IsSpace(r[|r| - 1])
    ensures forall j :: |r| <= j < |s| ==> IsSpace(s[j])
  {
    if |s| > 0 && IsSpace(s[|s| - 1]) then RStrip(s[..|s| - 1]) else s
  }

  /** `s.strip()`: drops leading and trailing whitespace. */
  function Strip(s: string): (r: string)
    ensures r == [] || (!IsSpace(r[0]) && !IsSpace(r[|r| - 1]))
  {
    LStrip(RStrip(s))
  }

  /** A string that neither starts nor ends with whitespace is its own stripped form. */
  lemma StripPlain(s: string)
    ensures s == [] || (!IsSpace(s[0]) && !IsSpace(s[|s| - 1])) ==> Strip(s) == s
  {
  }

  /** Stripping twice is stripping once. */
  lemma StripIdempotent(s: string)
    ensures Strip(Strip(s)) == Strip(s)
  {
    StripPlain(Strip(s));
  }

  function LowerChar(c: char): (r: char)
    ensures 'A' <= c <= 'Z' ==> 'a' <= r <= 'z' && r as int == c as int + 32
    ensures !('A' <= c <= 'Z') ==> r == c
  {
    if 'A' <= c <= 'Z' then (c as int + 32) as char else c
  }

  /** `s.lower()` on ASCII letters; other characters are kept. */
  function Lower(s: string): (r: string)
    ensures |r| == |s|
    ensures forall i :: 0 <= i < |s| ==> r[i] == LowerChar(s[i])
  {
    seq(|s|, i requires 0 <= i < |s| => LowerChar(s[i]))
  }

  /** Lower-casing leaves a string without capital letters unchanged. */
  lemma LowerNoCapitals(s: string)
    requires forall c :: c in s ==> !('A' <= c <= 'Z')
    ensures Lower(s) == s
  {
    assert forall i :: 0 <= i < |s| ==> s[i] in s;
  }

  /** `os.path.splitext` on a POSIX path: the extension starts at the last '.' after the
      last '/', provided some character other than '.' precedes it in the last component. */
  function SplitExt(p: string): (r: (string, string))
    ensures r.0 + r.1 == p
    ensures r.1 == "" || (r.1[0] == '.' && '/' !in r.1)
  {
    var sepIndex := RFind(p, '/');
    var dotIndex := RFind(p, '.');
    if dotIndex > sepIndex && exists j :: sepIndex + 1 <= j < dotIndex && p[j] != '.' then
      assert p == p[..dotIndex] + p[dotIndex..];
      (p[..dotIndex], p[dotIndex..])
    else (p, "")
  }

  /** A name without '/' splits at its last '.' when a character other than '.' comes
      first. */
  lemma SplitExtAt(p: string, stem: string, ext: string)
    requires p == stem + ext && '/' !in p
    requires stem != [] && stem[0] != '.' && ext != [] && ext[0] == '.' && '.' !in ext[1..]
    ensures SplitExt(p) == (stem, ext)
  {
    var d := |stem|;
    assert p[d] == '.';
    forall j | d < j < |p|
      ensures p[j] != '.'
    {
      assert p[j] == ext[1..][j - d - 1];
    }
    assert RFind(p, '.') == d;
    assert p[0] != '.';
    assert p[..d] == stem && p[d..] == ext;
  }

  function Filter<T>(s: seq<T>, keep: T -> bool): (r: seq<T>)
    ensures |r| <= |s|
    ensures forall i :: 0 <= i < |r| ==> r[i] in s && keep(r[i])
    ensures forall i :: 0 <= i < |s| && keep(s[i]) ==> s[i] in r
  {
    if |s| == 0 then []
    else if keep(s[0]) then [s[0]] + Filter(s[1..], keep)
    else Filter(s[1..], keep)
  }

  /** Appending one element to the input appends it to the output exactly when it is kept. */
  lemma {:induction false} FilterAppend<T>(s: seq<T>, x: T, keep: T -> bool)
    ensures Filter(s + [x], keep) == Filter(s, keep) + (if keep(x) then [x] else [])
  {
    if |s| > 0 {
      assert (s + [x])[1..] == s[1..] + [x];
      FilterAppend(s[1..], x, keep);
    }
  }

  /** The images under `f` of the elements of `s` that `keep` accepts, in order: a loop
      that appends `f(x)` for every kept `x`. */
  function FilterMap<A, B>(s: seq<A>, keep: A -> bool, f: A -> B): (r: seq<B>)
    ensures |r| <= |s|
  {
    if s == [] then []
    else
      var r := FilterMap(s[..|s| - 1], keep, f);
      if keep(s[|s| - 1]) then r + [f(s[|s| - 1])] else r
  }

  /** One more element of `s` extends the result by its image when it is kept. */
  lemma FilterMapStep<A, B>(s: seq<A>, keep: A -> bool, f: A -> B, i: int)
    requires 0 <= i < |s|
    ensures FilterMap(s[..i + 1], keep, f) == FilterMap(s[..i], keep, f) + (if keep(s[i]) then [f(s[i])] else [])
  {
    assert s[..i + 1][..i] == s[..i];
  }

  /** An element is in the result exactly when it is the image of a kept element. */
  lemma {:induction false} FilterMapExactly<A, B>(s: seq<A>, keep: A -> bool, f: A -> B, y: B)
    ensures y in FilterMap(s, keep, f) <==> exists i :: 0 <= i < |s| && keep(s[i]) && y == f(s[i])
  {
    if s != [] {
      var init := s[..|s| - 1];
      FilterMapExactly(init, keep, f, y);
      if exists i :: 0 <= i < |s| && keep(s[i]) && y == f(s[i]) {
        var i :| 0 <= i < |s| && keep(s[i]) && y == f(s[i]);
        if i < |init| {
          assert init[i] == s[i];
        }
      }
    }
  }

  /** Python's `<` on strings: code-point order, position by position, a proper prefix first. */
  predicate Less(a: string, b: string)
    decreases |a|
  {
    if b == [] then false
    else if a == [] then true
    else if a[0] != b[0] then a[0] < b[0]
    else Less(a[1..], b[1..])
  }

  lemma {:induction false} LessAsymmetric(a: string, b: string)
    ensures !(Less(a, b) && Less(b, a))
    decreases |a|
  {
    if a != [] && b != [] && a[0] == b[0] {
      LessAsymmetric(a[1..], b[1..]);
    }
  }

  lemma {:induction false} LessTransitive(a: string, b: string, c: string)
    requires Less(a, b) && Less(b, c)
    ensures Less(a, c)
    decreases |a|
  {
    if a != [] && a[0] == b[0] && b[0] == c[0] {
      LessTransitive(a[1..], b[1..], c[1..]);
    }
  }

  lemma {:induction false} LessTotal(a: string, b: string)
    ensures a == b || Less(a, b) || Less(b, a)
    decreases |a|
  {
    if a != [] && b != [] && a[0] == b[0] {
      LessTotal(a[1..], b[1..]);
      if a[1..] == b[1..] {
        assert a == [a[0]] + a[1..] && b == [b[0]] + b[1..];
      }
    }
  }

  /** `not a < b` is transitive: from `a >= b` and `b >= c` follows `a >= c`. */
  lemma AtLeastTransitive(a: string, b: string, c: string)
    requires !Less(a, b) && !Less(b, c)
    ensures !Less(a, c)
  {
    LessTotal(a, b);
    LessTotal(b, c);
    LessAsymmetric(a, c);
    if Less(b, a) && Less(c, b) {
      LessTransitive(c, b, a);
    }
  }
}
