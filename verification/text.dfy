/** ASCII text helpers standing in for the Python `str` methods the source
    relies on: `isspace`, `strip`, `upper`, `split`, digit conversion and the
    code-point ordering used by `sorted`. Characters outside ASCII are treated
    as ordinary non-space, non-letter characters. */
module Text {

  import opened Wrappers

  /** `str.isspace()` restricted to ASCII: space, \t \n \v \f \r and the
      four separator controls 0x1C..0x1F. */
  predicate IsSpace(c: char) {
    c == ' ' || ('\t' <= c <= '\r') || ('\U{1C}' <= c <= '\U{1F}')
  }

  predicate IsDigit(c: char) {
    '0' <= c <= '9'
  }

  predicate IsLetter(c: char) {
    ('a' <= c <= 'z') || ('A' <= c <= 'Z')
  }

  /** The character class `[A-Za-z0-9]`. */
  predicate IsAlnum(c: char) {
    IsLetter(c) || IsDigit(c)
  }

  predicate AllSpace(s: string) {
    forall i :: 0 <= i < |s| ==> IsSpace(s[i])
  }

  predicate AllDigits(s: string) {
    forall i :: 0 <= i < |s| ==> IsDigit(s[i])
  }

  function ToUpper(c: char): (u: char)
    ensures IsLetter(c) <==> IsLetter(u)
    ensures IsDigit(c) <==> IsDigit(u)
    ensures !('a' <= u <= 'z')
  {
    if 'a' <= c <= 'z' then (c as int - 32) as char else c
  }

  /** `str.upper()` on ASCII. */
  function Upper(s: string): (u: string)
    ensures |u| == |s|
    ensures forall i {:trigger u[i]} :: 0 <= i < |s| ==> u[i] == ToUpper(s[i])
  {
    seq(|s|, i requires 0 <= i < |s| => ToUpper(s[i]))
  }

  lemma UpperIdempotent(s: string)
    ensures Upper(Upper(s)) == Upper(s)
  {
  }

  /** `str.lstrip()`: drops the leading whitespace and nothing else. */
  function LStrip(s: string): (r: string)
    ensures |r| <= |s| && r == s[|s| - |r|..]
    ensures AllSpace(s[..|s| - |r|])
    ensures r == [] || !IsSpace(r[0])
  {
    if |s| > 0 && IsSpace(s[0]) then
      var r := LStrip(s[1..]);
      assert s[..|s| - |r|] == [s[0]] + s[1..][..|s| - 1 - |r|];
      r
    else s
  }

  /** `str.rstrip()`: drops the trailing whitespace and nothing else. */
  function RStrip(s: string): (r: string)
    ensures |r| <= |s| && r == s[..|r|]
    ensures AllSpace(s[|r|..])
    ensures r == [] || !IsSpace(r[|r| - 1])
  {
    if |s| > 0 && IsSpace(s[|s| - 1]) then
      var init := s[..|s| - 1];
      var r := RStrip(init);
      assert init[..|r|] == s[..|r|];
      assert s[|r|..] == init[|r|..] + [s[|s| - 1]];
      r
    else s
  }

  /** `str.strip()`: a piece of `s` that neither starts nor ends with
      whitespace, with only whitespace cut away on either side. */
  function Strip(s: string): (r: string)
    ensures |r| <= |LStrip(s)| <= |s|
    ensures r == [] || (!IsSpace(r[0]) && !IsSpace(r[|r| - 1]))
    ensures AllSpace(s[..|s| - |LStrip(s)|]) && r == LStrip(s)[..|r|] && AllSpace(LStrip(s)[|r|..])
  {
    RStrip(LStrip(s))
  }

  lemma {:induction false} LStripSpacePrefix(sp: string, x: string)
    requires AllSpace(sp)
    requires x == [] || !IsSpace(x[0])
    ensures LStrip(sp + x) == x
    decreases |sp|
  {
    if |sp| == 0 {
      assert sp + x == x;
    } else {
      assert (sp + x)[1..] == sp[1..] + x;
      LStripSpacePrefix(sp[1..], x);
    }
  }

  lemma {:induction false} RStripSpaceSuffix(x: string, sp: string)
    requires AllSpace(sp)
    requires x == [] || !IsSpace(x[|x| - 1])
    ensures RStrip(x + sp) == x
    decreases |sp|
  {
    if |sp| == 0 {
      assert x + sp == x;
    } else {
      var n := |sp| - 1;
      assert (x + sp)[..|x + sp| - 1] == x + sp[..n];
      RStripSpaceSuffix(x, sp[..n]);
    }
  }

  /** Stripping whitespace padding gives back exactly the padded text. */
  lemma StripPadded(lead: string, x: string, trail: string)
    requires AllSpace(lead) && AllSpace(trail)
    requires x == [] || (!IsSpace(x[0]) && !IsSpace(x[|x| - 1]))
    ensures Strip(lead + x + trail) == x
  {
    if x == [] {
      assert lead + x + trail == lead + trail;
      assert forall i :: 0 <= i < |lead + trail| ==> IsSpace((lead + trail)[i]);
      LStripSpacePrefix(lead + trail, []);
      assert lead + trail + [] == lead + trail;
      RStripSpaceSuffix([], []);
    } else {
      assert lead + x + trail == lead + (x + trail);
      LStripSpacePrefix(lead, x + trail);
      RStripSpaceSuffix(x, trail);
    }
  }

  /** Python's `int()` of a run of ASCII digits (leading zeros allowed). */
  function DigitsValue(s: string): (n: nat)
    requires AllDigits(s)
  {
    if |s| == 0 then 0
    else DigitsValue(s[..|s| - 1]) * 10 + (s[|s| - 1] as int - '0' as int)
  }

  /** `s.split(sep)` for a one-character separator. */
  function Split(s: string, sep: char): (parts: seq<string>)
    ensures |parts| >= 1
    ensures forall k :: 0 <= k < |parts| ==> sep !in parts[k]
  {
    if |s| == 0 then [""]
    else if s[0] == sep then [""] + Split(s[1..], sep)
    else
      var rest := Split(s[1..], sep);
      [[s[0]] + rest[0]] + rest[1..]
  }

  /** `sep.join(parts)`, the inverse of `Split`. */
  function Join(parts: seq<string>, sep: char): string
    requires |parts| >= 1
  {
    if |parts| == 1 then parts[0] else parts[0] + [sep] + Join(parts[1..], sep)
  }

  lemma {:induction false} JoinSplit(s: string, sep: char)
    ensures Join(Split(s, sep), sep) == s
    decreases |s|
  {
    if |s| == 0 {
    } else if s[0] == sep {
      JoinSplit(s[1..], sep);
      assert s == [sep] + s[1..];
    } else {
      var rest := Split(s[1..], sep);
      JoinSplit(s[1..], sep);
      if |rest| == 1 {
        assert s == [s[0]] + rest[0];
      } else {
        assert Join(rest, sep) == rest[0] + [sep] + Join(rest[1..], sep);
        var parts := [[s[0]] + rest[0]] + rest[1..];
        assert parts[1..] == rest[1..];
        assert s == [s[0]] + s[1..];
      }
    }
  }

  /** A separator-free head splits off as the first piece. */
  lemma {:induction false} SplitHead(a: string, sep: char, rest: string)
    requires sep !in a
    ensures Split(a + [sep] + rest, sep) == [a] + Split(rest, sep)
    decreases |a|
  {
    if |a| == 0 {
      assert a + [sep] + rest == [sep] + rest;
      assert ([sep] + rest)[1..] == rest;
    } else {
      assert (a + [sep] + rest)[0] == a[0];
      assert (a + [sep] + rest)[1..] == a[1..] + [sep] + rest;
      SplitHead(a[1..], sep, rest);
      assert [a[0]] + a[1..] == a;
    }
  }

  lemma {:induction false} SplitNoSep(a: string, sep: char)
    requires sep !in a
    ensures Split(a, sep) == [a]
    decreases |a|
  {
    if |a| > 0 {
      SplitNoSep(a[1..], sep);
      assert [a[0]] + a[1..] == a;
    }
  }

  /** `s.split(sep, 1)` when `sep` occurs: the text before the first `sep`
      and everything after it; `None` when `sep` does not occur. */
  function PartitionFirst(s: string, sep: char): (r: Option<(string, string)>)
    ensures r.None? <==> sep !in s
    ensures r.Some? ==> sep !in r.value.0 && s == r.value.0 + [sep] + r.value.1
  {
    if |s| == 0 then None
    else if s[0] == sep then Some(([], s[1..]))
    else match PartitionFirst(s[1..], sep)
      case None => None
      case Some(p) => Some(([s[0]] + p.0, p.1))
  }

  lemma {:induction false} PartitionJoin(a: string, sep: char, b: string)
    requires sep !in a
    ensures PartitionFirst(a + [sep] + b, sep) == Some((a, b))
    decreases |a|
  {
    if |a| == 0 {
      assert a + [sep] + b == [sep] + b;
    } else {
      assert (a + [sep] + b)[0] == a[0];
      assert (a + [sep] + b)[1..] == a[1..] + [sep] + b;
      PartitionJoin(a[1..], sep, b);
      assert [a[0]] + a[1..] == a;
    }
  }

  /** Python's `<` on `str`: code-point lexicographic order. */
  predicate LexLess(a: string, b: string) {
    if |a| == 0 then |b| > 0
    else if |b| == 0 then false
    else if a[0] == b[0] then LexLess(a[1..], b[1..])
    else a[0] < b[0]
  }

  lemma {:induction false} LexIrreflexive(a: string)
    ensures !LexLess(a, a)
    decreases |a|
  {
    if |a| > 0 { LexIrreflexive(a[1..]); }
  }

  lemma {:induction false} LexTransitive(a: string, b: string, c: string)
    requires LexLess(a, b) && LexLess(b, c)
    ensures LexLess(a, c)
    decreases |a|
  {
    if |a| > 0 && |b| > 0 && |c| > 0 && a[0] == b[0] == c[0] {
      LexTransitive(a[1..], b[1..], c[1..]);
    }
  }

  lemma {:induction false} LexTotal(a: string, b: string)
    requires a != b
    ensures LexLess(a, b) || LexLess(b, a)
    decreases |a|
  {
    if |a| > 0 && |b| > 0 && a[0] == b[0] {
      assert a == [a[0]] + a[1..] && b == [b[0]] + b[1..];
      LexTotal(a[1..], b[1..]);
    }
  }

}
