/** Asset symbol extraction (src/application/services/asset_extractor.py).
    Known symbols are normalised once; an event's title and content are
    scanned the way `re.finditer` runs the compiled pattern
    `(?<![A-Za-z0-9])(?:\$)?(SYM1|SYM2|...)(?![A-Za-z0-9])` with
    IGNORECASE, alternatives ordered longest first; categories that
    normalise to a known symbol are added. Characters are ASCII. */
module AssetExtractor {

  import opened Wrappers
  import opened Text

  /** The event fields the extractor reads. The domain `Event` record has
      no categories, so the list is optional here. */
  datatype Item = Item(title: Option<string>, content: Option<string>, categories: Option<seq<Option<string>>>)

  datatype Asset = Asset(symbol: string)

  /** The normalised known symbols; a list standing for the source's set
      (duplicates are harmless). */
  datatype Extractor = Extractor(symbols: seq<string>)

  /** `x or ""`. */
  function OrEmpty(s: Option<string>): string {
    if s.None? then [] else s.value
  }

  /** Stripped and upper-cased. */
  function Norm(s: Option<string>): string {
    Upper(Strip(OrEmpty(s)))
  }

  /** An entry as `__init__` keeps it: stripped and upper-cased, or
      dropped when blank. */
  function Clean(s: Option<string>): (r: Option<string>)
    ensures r.None? <==> Strip(OrEmpty(s)) == []
    ensures r.Some? ==> r.value == Norm(s)
  {
    var t := Strip(OrEmpty(s));
    if t == [] then None else Some(Upper(t))
  }

  /** The defined values of `f` over `xs`, in order. */
  function FilterMap<T>(xs: seq<T>, f: T -> Option<string>): (ys: seq<string>)
    ensures forall y :: y in ys <==> exists i :: 0 <= i < |xs| && f(xs[i]) == Some(y)
  {
    if |xs| == 0 then []
    else
      var init := FilterMap(xs[..|xs| - 1], f);
      assert forall i :: 0 <= i < |xs| - 1 ==> xs[..|xs| - 1][i] == xs[i];
      var last := f(xs[|xs| - 1]);
      if last.None? then init else init + [last.value]
  }

  /** `__init__`: the known symbols are the cleaned non-blank entries. */
  function New(known: seq<Option<string>>): (e: Extractor)
    ensures forall x :: x in e.symbols <==> exists i :: 0 <= i < |known| && Clean(known[i]) == Some(x)
  {
    Extractor(FilterMap(known, Clean))
  }

  /** Every known symbol is non-empty, upper case and has no whitespace at
      either end. */
  lemma NewWellFormed(known: seq<Option<string>>)
    ensures WellFormed(New(known))
    ensures forall x :: x in New(known).symbols ==> !IsSpace(x[0]) && !IsSpace(x[|x| - 1])
  {
    forall x | x in New(known).symbols
      ensures x != [] && Upper(x) == x && !IsSpace(x[0]) && !IsSpace(x[|x| - 1])
    {
      var i :| 0 <= i < |known| && Clean(known[i]) == Some(x);
      CleanWellFormed(known[i], x);
    }
  }

  lemma CleanWellFormed(s: Option<string>, x: string)
    requires Clean(s) == Some(x)
    ensures x != [] && Upper(x) == x && !IsSpace(x[0]) && !IsSpace(x[|x| - 1])
  {
    NormWellFormed(s);
  }

  /** A non-blank entry normalises to non-empty upper-case text with no
      whitespace at either end. */
  lemma NormWellFormed(s: Option<string>)
    requires Strip(OrEmpty(s)) != []
    ensures var x := Norm(s); x != [] && Upper(x) == x && !IsSpace(x[0]) && !IsSpace(x[|x| - 1])
  {
    var t := Strip(OrEmpty(s));
    UpperIdempotent(t);
  }

  /** Every symbol is non-empty and already upper case. */
  ghost predicate WellFormed(e: Extractor) {
    UpperSyms(e.symbols)
  }

  /** Every candidate symbol is non-empty. */
  predicate NonEmptySyms(syms: seq<string>) {
    forall s :: s in syms ==> s != []
  }

  /** Every candidate symbol is non-empty and already upper case. */
  predicate UpperSyms(syms: seq<string>) {
    NonEmptySyms(syms) && forall s :: s in syms ==> Upper(s) == s
  }

  /** Every candidate symbol is non-empty, upper case and made of letters
      and digits. */
  predicate AlnumSyms(syms: seq<string>) {
    UpperSyms(syms) && forall t :: t in syms ==> AllAlnum(t)
  }

  /** `s` matches ignoring (ASCII) case at `q`, and no `[A-Za-z0-9]`
      follows it. */
  predicate SymbolAt(hay: string, q: nat, s: string) {
    && q + |s| <= |hay|
    && (forall i {:trigger s[i]} :: 0 <= i < |s| ==> ToUpper(hay[q + i]) == s[i])
    && (q + |s| == |hay| || !IsAlnum(hay[q + |s|]))
  }

  /** A symbol standing on its own: no `[A-Za-z0-9]` on either side. */
  predicate Occurs(hay: string, q: nat, s: string) {
    SymbolAt(hay, q, s) && (q == 0 || !IsAlnum(hay[q - 1]))
  }

  /** The longest candidate that matches at `q`. */
  function LongestAt(hay: string, q: nat, cands: seq<string>): (r: Option<string>)
    ensures r.Some? ==> r.value in cands && SymbolAt(hay, q, r.value)
    ensures r.None? ==> forall i :: 0 <= i < |cands| ==> !SymbolAt(hay, q, cands[i])
    ensures r.Some? ==> forall i :: 0 <= i < |cands| && SymbolAt(hay, q, cands[i]) ==> |cands[i]| <= |r.value|
  {
    if |cands| == 0 then None
    else
      var rest := LongestAt(hay, q, cands[..|cands| - 1]);
      var c := cands[|cands| - 1];
      assert forall i :: 0 <= i < |cands| - 1 ==> cands[..|cands| - 1][i] == cands[i];
      if SymbolAt(hay, q, c) && (rest.None? || |c| > |rest.value|) then Some(c) else rest
  }

  /** Two upper-case symbols of one length matching at one position are
      the same symbol; so the longest match is the first alternative of
      the pattern (ordered by descending length, then text) that matches. */
  lemma SameLengthSame(hay: string, q: nat, a: string, b: string)
    requires SymbolAt(hay, q, a) && SymbolAt(hay, q, b) && |a| == |b|
    ensures a == b
  {
    assert forall i :: 0 <= i < |a| ==> a[i] == ToUpper(hay[q + i]) == b[i];
  }

  /** One match found by `finditer`: where the captured symbol starts and
      which known symbol it is. */
  datatype Match = Match(start: nat, sym: string)

  /** The pattern tried at position `p` (< |hay|): the look-behind, then
      the optional '$' (tried with it first), then the alternatives. */
  function MatchAt(hay: string, p: nat, syms: seq<string>): (r: Option<Match>)
    requires p < |hay|
    ensures r.Some? ==> r.value.sym in syms && SymbolAt(hay, r.value.start, r.value.sym)
    ensures r.Some? ==> p == 0 || !IsAlnum(hay[p - 1])
    ensures r.Some? ==> r.value.start == p || (r.value.start == p + 1 && hay[p] == '$')
  {
    if p > 0 && IsAlnum(hay[p - 1]) then None
    else
      var dollar := if hay[p] == '$' then LongestAt(hay, p + 1, syms) else None;
      if dollar.Some? then Some(Match(p + 1, dollar.value))
      else
        match LongestAt(hay, p, syms)
        case None => None
        case Some(s) => Some(Match(p, s))
  }

  /** The upper-cased captured text of every match from position `p` on;
      after a match the scan resumes where it ended. */
  function Scan(hay: string, p: nat, syms: seq<string>): set<string>
    requires NonEmptySyms(syms)
    decreases |hay| - p
  {
    if p >= |hay| then {}
    else
      match MatchAt(hay, p, syms)
      case None => Scan(hay, p + 1, syms)
      case Some(m) => {Upper(hay[m.start..m.start + |m.sym|])} + Scan(hay, m.start + |m.sym|, syms)
  }

  /** The captured text of a match, upper-cased, is the symbol. */
  lemma CapturedIsSymbol(hay: string, q: nat, s: string)
    requires SymbolAt(hay, q, s) && Upper(s) == s
    ensures Upper(hay[q..q + |s|]) == s
  {
    var g := Upper(hay[q..q + |s|]);
    assert forall i :: 0 <= i < |s| ==> g[i] == ToUpper(hay[q + i]) == s[i];
  }

  /** Whatever the scan reports is a known symbol standing on its own
      somewhere at or after `p`. */
  lemma {:induction false} ScanSound(hay: string, p: nat, syms: seq<string>, x: string)
    requires UpperSyms(syms)
    requires x in Scan(hay, p, syms)
    ensures x in syms && exists q :: p <= q && Occurs(hay, q, x)
    decreases |hay| - p, 1
  {
    if MatchAt(hay, p, syms).None? {
      ScanSoundSkip(hay, p, syms, x);
    } else {
      ScanSoundMatch(hay, p, syms, x, MatchAt(hay, p, syms).value);
    }
  }

  /** `ScanSound` where nothing matches at `p`. */
  lemma {:induction false} ScanSoundSkip(hay: string, p: nat, syms: seq<string>, x: string)
    requires UpperSyms(syms)
    requires p < |hay| && MatchAt(hay, p, syms).None?
    requires x in Scan(hay, p, syms)
    ensures x in syms && exists q :: p <= q && Occurs(hay, q, x)
    decreases |hay| - p, 0
  {
    ScanSkip(hay, p, syms);
    ScanSound(hay, p + 1, syms, x);
    var q :| p + 1 <= q && Occurs(hay, q, x);
    assert p <= q;
  }

  /** `ScanSound` where the match `m` is found at `p`. */
  lemma {:induction false} ScanSoundMatch(hay: string, p: nat, syms: seq<string>, x: string, m: Match)
    requires UpperSyms(syms)
    requires p < |hay| && MatchAt(hay, p, syms) == Some(m)
    requires x in Scan(hay, p, syms)
    ensures x in syms && exists q :: p <= q && Occurs(hay, q, x)
    decreases |hay| - p, 0
  {
    ScanAtMatch(hay, p, syms, m, x);
    if x != m.sym {
      ScanSound(hay, m.start + |m.sym|, syms, x);
      var q :| m.start + |m.sym| <= q && Occurs(hay, q, x);
      assert p <= q;
    } else {
      assert Occurs(hay, m.start, x);
    }
  }

  /** What the scan reports from a match on is the matched symbol or
      something reported after it. */
  lemma ScanAtMatch(hay: string, p: nat, syms: seq<string>, m: Match, x: string)
    requires UpperSyms(syms)
    requires p < |hay| && MatchAt(hay, p, syms) == Some(m)
    requires x in Scan(hay, p, syms)
    ensures x == m.sym || x in Scan(hay, m.start + |m.sym|, syms)
  {
    ScanAfterMatch(hay, p, syms, m);
    CapturedIsSymbol(hay, m.start, m.sym);
  }

  /** The matched symbol itself is reported. */
  lemma CapturedInScan(hay: string, p: nat, syms: seq<string>, m: Match)
    requires UpperSyms(syms)
    requires p < |hay| && MatchAt(hay, p, syms) == Some(m)
    ensures m.sym in Scan(hay, p, syms)
  {
    ScanAfterMatch(hay, p, syms, m);
    CapturedIsSymbol(hay, m.start, m.sym);
  }

  /** Whatever is reported after a match is reported from `p`. */
  lemma ScanPastMatch(hay: string, p: nat, syms: seq<string>, m: Match, x: string)
    requires NonEmptySyms(syms)
    requires p < |hay| && MatchAt(hay, p, syms) == Some(m)
    requires x in Scan(hay, m.start + |m.sym|, syms)
    ensures x in Scan(hay, p, syms)
  {
    ScanAfterMatch(hay, p, syms, m);
  }

  /** The scan past a position where the pattern does not match. */
  lemma ScanSkip(hay: string, p: nat, syms: seq<string>)
    requires NonEmptySyms(syms)
    requires p < |hay| && MatchAt(hay, p, syms).None?
    ensures Scan(hay, p, syms) == Scan(hay, p + 1, syms)
  {
  }

  predicate AllAlnum(s: string) {
    forall i :: 0 <= i < |s| ==> IsAlnum(s[i])
  }

  /** A symbol made of letters and digits matches only letters and
      digits. */
  lemma AlnumSpan(hay: string, q: nat, s: string, k: nat)
    requires SymbolAt(hay, q, s) && AllAlnum(s) && k < |s|
    ensures IsAlnum(hay[q + k])
  {
    assert ToUpper(hay[q + k]) == s[k];
  }

  /** With letters-and-digits symbols, the best match at a position where
      `s` stands is `s` itself. */
  lemma LongestIsOccurrence(hay: string, q: nat, syms: seq<string>, s: string)
    requires AlnumSyms(syms)
    requires s in syms && SymbolAt(hay, q, s)
    ensures LongestAt(hay, q, syms) == Some(s)
  {
    var t := LongestAt(hay, q, syms).value;
    if |t| > |s| {
      AlnumSpan(hay, q, t, |s|);
      assert false;
    }
    SameLengthSame(hay, q, s, t);
  }

  /** With letters-and-digits symbols the scan is complete: every known
      symbol standing on its own at or after `p` is reported. */
  lemma {:induction false} ScanComplete(hay: string, p: nat, syms: seq<string>, s: string, q: nat)
    requires AlnumSyms(syms)
    requires s in syms && p <= q && Occurs(hay, q, s)
    ensures s in Scan(hay, p, syms)
    decreases |hay| - p, 1
  {
    if q == p {
      ScanAtOccurrence(hay, p, syms, s);
    } else if MatchAt(hay, p, syms).None? {
      ScanCompleteSkip(hay, p, syms, s, q);
    } else {
      ScanCompleteMatch(hay, p, syms, s, q, MatchAt(hay, p, syms).value);
    }
  }

  /** `ScanComplete` where nothing matches at `p`. */
  lemma {:induction false} ScanCompleteSkip(hay: string, p: nat, syms: seq<string>, s: string, q: nat)
    requires AlnumSyms(syms)
    requires s in syms && p < q && Occurs(hay, q, s)
    requires p < |hay| && MatchAt(hay, p, syms).None?
    ensures s in Scan(hay, p, syms)
    decreases |hay| - p, 0
  {
    ScanSkip(hay, p, syms);
    ScanComplete(hay, p + 1, syms, s, q);
  }

  /** `ScanComplete` where the match `m` is found at `p`. */
  lemma {:induction false} ScanCompleteMatch(hay: string, p: nat, syms: seq<string>, s: string, q: nat, m: Match)
    requires AlnumSyms(syms)
    requires s in syms && p < q && Occurs(hay, q, s)
    requires p < |hay| && MatchAt(hay, p, syms) == Some(m)
    ensures s in Scan(hay, p, syms)
    decreases |hay| - p, 0
  {
    MatchDoesNotHide(hay, syms, m, s, q);
    if q == m.start {
      CapturedInScan(hay, p, syms, m);
    } else {
      ScanComplete(hay, m.start + |m.sym|, syms, s, q);
      ScanPastMatch(hay, p, syms, m, s);
    }
  }

  /** The scan reports a letters-and-digits symbol standing on its own
      where it starts. */
  lemma ScanAtOccurrence(hay: string, p: nat, syms: seq<string>, s: string)
    requires AlnumSyms(syms)
    requires s in syms && Occurs(hay, p, s)
    ensures s in Scan(hay, p, syms)
  {
    MatchAtOccurrence(hay, p, syms, s);
    CapturedInScan(hay, p, syms, Match(p, s));
  }

  /** Where a letters-and-digits symbol stands on its own, the pattern
      matches exactly that symbol. */
  lemma MatchAtOccurrence(hay: string, q: nat, syms: seq<string>, s: string)
    requires AlnumSyms(syms)
    requires s in syms && Occurs(hay, q, s)
    ensures q < |hay| && MatchAt(hay, q, syms) == Some(Match(q, s))
  {
    AlnumSpan(hay, q, s, 0);
    LongestIsOccurrence(hay, q, syms, s);
  }

  /** The scan at a position where the pattern matches. */
  lemma ScanAfterMatch(hay: string, p: nat, syms: seq<string>, m: Match)
    requires NonEmptySyms(syms)
    requires p < |hay| && MatchAt(hay, p, syms) == Some(m)
    ensures Scan(hay, p, syms) == {Upper(hay[m.start..m.start + |m.sym|])} + Scan(hay, m.start + |m.sym|, syms)
  {
  }

  /** A match never swallows the start of a standalone letters-and-digits
      symbol: either that symbol is the match, or it starts after it. */
  lemma MatchDoesNotHide(hay: string, syms: seq<string>, m: Match, s: string, q: nat)
    requires AlnumSyms(syms)
    requires m.sym in syms && SymbolAt(hay, m.start, m.sym)
    requires s in syms && Occurs(hay, q, s) && m.start <= q
    ensures q == m.start ==> m.sym == s
    ensures q != m.start ==> m.start + |m.sym| <= q
  {
    if q == m.start {
      LongestIsOccurrenceAny(hay, q, m.sym, s);
    } else if q < m.start + |m.sym| {
      AlnumSpan(hay, m.start, m.sym, q - 1 - m.start);
    }
  }

  /** Two letters-and-digits symbols matching at one position are equal. */
  lemma LongestIsOccurrenceAny(hay: string, q: nat, a: string, b: string)
    requires AllAlnum(a) && AllAlnum(b) && a != [] && b != []
    requires SymbolAt(hay, q, a) && SymbolAt(hay, q, b)
    ensures a == b
  {
    if |a| > |b| {
      AlnumSpan(hay, q, a, |b|);
    } else if |b| > |a| {
      AlnumSpan(hay, q, b, |a|);
    } else {
      SameLengthSame(hay, q, a, b);
    }
  }

  /** The text searched: title and content joined by " \n ". */
  function Haystack(item: Item): string {
    OrEmpty(item.title) + " \n " + OrEmpty(item.content)
  }

  /** A symbol standing on its own in the title stands on its own in the
      haystack, at the same place: the separator after the title is not a
      letter or digit. */
  lemma OccursInTitle(item: Item, q: nat, s: string)
    requires Occurs(OrEmpty(item.title), q, s)
    ensures Occurs(Haystack(item), q, s)
  {
    var title := OrEmpty(item.title);
    var hay := Haystack(item);
    assert forall k :: 0 <= k < |title| ==> hay[k] == title[k];
    assert hay[|title|] == ' ';
  }

  /** A symbol standing on its own in the content stands on its own in
      the haystack, shifted past the title and the three separator
      characters. */
  lemma OccursInContent(item: Item, q: nat, s: string)
    requires Occurs(OrEmpty(item.content), q, s)
    ensures Occurs(Haystack(item), |OrEmpty(item.title)| + 3 + q, s)
  {
    var off := |OrEmpty(item.title)| + 3;
    var content := OrEmpty(item.content);
    var hay := Haystack(item);
    assert |hay| == off + |content|;
    assert forall k :: 0 <= k < |content| ==> hay[off + k] == content[k];
    assert hay[off - 1] == ' ';
  }

  /** The categories that normalise to a known symbol, normalised. */
  function CategoryMatches(e: Extractor, item: Item): (r: set<string>)
    ensures forall x :: x in r <==> x in e.symbols && exists i :: 0 <= i < |Categories(item)| && Norm(Categories(item)[i]) == x
  {
    var cs := Categories(item);
    set i | 0 <= i < |cs| && Norm(cs[i]) in e.symbols :: Norm(cs[i])
  }

  /** `event.categories or []`. */
  function Categories(item: Item): seq<Option<string>> {
    if item.categories.None? then [] else item.categories.value
  }

  /** `extract_symbols`. */
  function ExtractSymbols(e: Extractor, item: Item): (r: set<string>)
    requires WellFormed(e)
    ensures |e.symbols| == 0 ==> r == {}
    ensures forall x :: x in r ==> x in e.symbols
    ensures forall x :: x in r ==> x in CategoryMatches(e, item) || exists q :: Occurs(Haystack(item), q, x)
    ensures CategoryMatches(e, item) <= r
  {
    if |e.symbols| == 0 then {}
    else
      var found := Scan(Haystack(item), 0, e.symbols);
      forall x | x in found
        ensures x in e.symbols && exists q :: Occurs(Haystack(item), q, x)
      {
        ScanSound(Haystack(item), 0, e.symbols, x);
      }
      found + CategoryMatches(e, item)
  }

  /** For letters-and-digits symbols, a known symbol standing on its own
      in the title or in the content is always extracted. */
  lemma ExtractFindsStandalone(e: Extractor, item: Item, s: string, q: nat)
    requires WellFormed(e) && forall t :: t in e.symbols ==> AllAlnum(t)
    requires s in e.symbols
    requires Occurs(OrEmpty(item.title), q, s) || Occurs(OrEmpty(item.content), q, s)
    ensures s in ExtractSymbols(e, item)
  {
    if Occurs(OrEmpty(item.title), q, s) {
      OccursInTitle(item, q, s);
      ScanComplete(Haystack(item), 0, e.symbols, s, q);
    } else {
      OccursInContent(item, q, s);
      ScanComplete(Haystack(item), 0, e.symbols, s, |OrEmpty(item.title)| + 3 + q);
    }
  }

  /** A strictly ascending list of text. */
  ghost predicate StrictlySorted(xs: seq<string>) {
    forall i, j :: 0 <= i < j < |xs| ==> LexLess(xs[i], xs[j])
  }

  /** `x` placed into a strictly ascending list that lacks it. */
  function InsertLex(xs: seq<string>, x: string): (ys: seq<string>)
    requires StrictlySorted(xs) && x !in xs
    ensures StrictlySorted(ys)
    ensures forall y :: y in ys <==> y in xs || y == x
    ensures |ys| == |xs| + 1
  {
    if |xs| == 0 then [x]
    else if LexLess(x, xs[0]) then
      forall j | 0 <= j < |xs| ensures LexLess(x, xs[j]) {
        if j > 0 { LexTransitive(x, xs[0], xs[j]); }
      }
      [x] + xs
    else
      LexTotal(x, xs[0]);
      var rest := InsertLex(xs[1..], x);
      HeadBelow(xs[0], xs[1..], x, rest);
      [xs[0]] + rest
  }

  /** Prepending an element below all of `rest` keeps it ascending. */
  lemma HeadBelow(h: string, tail: seq<string>, x: string, rest: seq<string>)
    requires StrictlySorted(rest) && LexLess(h, x)
    requires forall k :: 0 <= k < |tail| ==> LexLess(h, tail[k])
    requires forall y :: y in rest ==> y in tail || y == x
    ensures StrictlySorted([h] + rest)
  {
    var ys := [h] + rest;
    forall i, j | 0 <= i < j < |ys|
      ensures LexLess(ys[i], ys[j])
    {
      assert ys[j] == rest[j - 1] && rest[j - 1] in rest;
      if i > 0 {
        assert ys[i] == rest[i - 1];
      }
    }
  }

  /** `extract_assets`: one asset per extracted symbol, in ascending
      order. */
  method ExtractAssets(e: Extractor, item: Item) returns (assets: seq<Asset>)
    requires WellFormed(e)
    ensures forall x :: (exists k :: 0 <= k < |assets| && assets[k].symbol == x) <==> x in ExtractSymbols(e, item)
    ensures forall i, j :: 0 <= i < j < |assets| ==> LexLess(assets[i].symbol, assets[j].symbol)
  {
    var rest := ExtractSymbols(e, item);
    var sorted: seq<string> := [];
    while rest != {}
      invariant StrictlySorted(sorted)
      invariant forall y :: y in sorted ==> y !in rest
      invariant forall y :: y in ExtractSymbols(e, item) <==> y in sorted || y in rest
      decreases |rest|
    {
      var x :| x in rest;
      sorted := InsertLex(sorted, x);
      rest := rest - {x};
    }
    assets := seq(|sorted|, k requires 0 <= k < |sorted| => Asset(sorted[k]));
    assert forall k :: 0 <= k < |sorted| ==> assets[k].symbol == sorted[k];
  }
}
