/** The program that cuts the Promela fragments out of the Haskell files, with its line numbers and its sort. */
module Extractor {
  datatype OutLine = Pragma(line: nat, file: string) | Text(s: string)

  /** A fragment: its sort number and its lines. */
  datatype Block = Block(pos: nat, lines: seq<OutLine>)

  datatype File = File(name: string, lines: seq<string>)

  /** A line as the scan sees it: whether it opens or closes a fragment, and the number it would give the fragment. */
  datatype Line = Line(text: string, opens: bool, closes: bool, pos: nat)

  const DEFAULT_POS := 100

  // ---------------------------------------------------------------- one line

  predicate IsSpace(c: char) {
    c in " \t\n\r" || c == 11 as char || c == 12 as char || c == 160 as char
  }

  function Upper(s: string): (r: string) {
    seq(|s|, i requires 0 <= i < |s| => if 'a' <= s[i] <= 'z' then s[i] - 'a' + 'A' else s[i])
  }

  function TakeWord(s: string): (r: string)
    ensures |r| <= |s|
  {
    if s == [] || IsSpace(s[0]) then [] else [s[0]] + TakeWord(s[1..])
  }

  function DropSpaces(s: string): (r: string) {
    if s != [] && IsSpace(s[0]) then DropSpaces(s[1..]) else s
  }

  function DropSpacesAtEnd(s: string): (r: string) {
    if s != [] && IsSpace(s[|s| - 1]) then DropSpacesAtEnd(s[..|s| - 1]) else s
  }

  function Trim(s: string): (r: string) {
    DropSpaces(DropSpacesAtEnd(s))
  }

  predicate IsDigit(c: char) {
    48 <= c as int <= 57
  }

  function TakeDigits(s: string): (r: string)
    ensures forall i :: 0 <= i < |r| ==> IsDigit(r[i])
  {
    if s == [] || !IsDigit(s[0]) then [] else [s[0]] + TakeDigits(s[1..])
  }

  function Number(ds: string): (n: nat)
    requires forall i :: 0 <= i < |ds| ==> IsDigit(ds[i])
  {
    if ds == [] then 0 else
      assert IsDigit(ds[|ds| - 1]);
      10 * Number(ds[..|ds| - 1]) + (ds[|ds| - 1] as int - 48)
  }

  /** The number after the first word of a line, or the default. */
  function ReadPos(s: string): (n: nat) {
    var ds := TakeDigits(DropSpaces(s[|TakeWord(s)|..]));
    if ds == [] then DEFAULT_POS else Number(ds)
  }

  predicate IsStart(keyword: string, line: string) {
    Upper(TakeWord(line)) == "{-*" + Upper(keyword)
  }

  predicate IsEnd(line: string) {
    Trim(line) == "-}" || Trim(line) == "*-}"
  }

  predicate AllSpaces(s: string) {
    forall i :: 0 <= i < |s| ==> IsSpace(s[i])
  }

  predicate NoSpaces(s: string) {
    forall i :: 0 <= i < |s| ==> !IsSpace(s[i])
  }

  lemma {:induction false} WordBefore(w: string, rest: string)
    requires NoSpaces(w) && (rest != [] ==> IsSpace(rest[0]))
    ensures TakeWord(w + rest) == w
  {
    if w == [] {
      assert w + rest == rest;
    } else {
      WordBefore(w[1..], rest);
      assert (w + rest)[1..] == w[1..] + rest;
    }
  }

  lemma {:induction false} SpacesBefore(sp: string, rest: string)
    requires AllSpaces(sp) && (rest != [] ==> !IsSpace(rest[0]))
    ensures DropSpaces(sp + rest) == rest
  {
    if sp == [] {
      assert sp + rest == rest;
    } else {
      SpacesBefore(sp[1..], rest);
      assert (sp + rest)[1..] == sp[1..] + rest;
    }
  }

  lemma {:induction false} SpacesAfter(rest: string, sp: string)
    requires AllSpaces(sp) && (rest != [] ==> !IsSpace(rest[|rest| - 1]))
    ensures DropSpacesAtEnd(rest + sp) == rest
    decreases |sp|
  {
    if sp == [] {
      assert rest + sp == rest;
    } else {
      SpacesAfter(rest, sp[..|sp| - 1]);
      assert (rest + sp)[..|rest + sp| - 1] == rest + sp[..|sp| - 1];
    }
  }

  lemma {:induction false} DigitsBefore(ds: string, rest: string)
    requires (forall i :: 0 <= i < |ds| ==> IsDigit(ds[i])) && (rest != [] ==> !IsDigit(rest[0]))
    ensures TakeDigits(ds + rest) == ds
  {
    if ds == [] {
      assert ds + rest == rest;
    } else {
      DigitsBefore(ds[1..], rest);
      assert (ds + rest)[1..] == ds[1..] + rest;
    }
  }

  function Decimal(n: nat): (ds: string)
    ensures ds != [] && forall i :: 0 <= i < |ds| ==> IsDigit(ds[i])
  {
    var c := (48 + n % 10) as char;
    if n < 10 then [c] else Decimal(n / 10) + [c]
  }

  lemma {:induction false} NumberOfDecimal(n: nat)
    ensures Number(Decimal(n)) == n
  {
    var c := (48 + n % 10) as char;
    if n < 10 {
      assert [c][..0] == [];
    } else {
      NumberOfDecimal(n / 10);
      assert (Decimal(n / 10) + [c])[..|Decimal(n / 10)|] == Decimal(n / 10);
    }
  }

  /** A line with a number after its first word gives that number, one without gives the default, as a bare word does. */
  lemma ReadsNumber(w: string, sp: string, n: nat, rest: string)
    requires NoSpaces(w) && AllSpaces(sp) && (rest != [] ==> !IsDigit(rest[0]))
    ensures sp != [] ==> ReadPos(w + sp + Decimal(n) + rest) == n
    ensures (rest != [] ==> sp != [] && !IsSpace(rest[0])) ==> ReadPos(w + sp + rest) == DEFAULT_POS
  {
    if sp != [] {
      var ds := Decimal(n);
      NumberOfDecimal(n);
      ReadsAfter(w, sp, ds + rest);
      DigitsBefore(ds, rest);
      assert w + sp + ds + rest == w + sp + (ds + rest);
    }
    if rest != [] ==> sp != [] && !IsSpace(rest[0]) { ReadsAfter(w, sp, rest); }
  }

  lemma ReadsAfter(w: string, sp: string, rest: string)
    requires NoSpaces(w) && AllSpaces(sp) && (rest != [] ==> sp != [] && !IsSpace(rest[0]))
    ensures ReadPos(w + sp + rest) == if TakeDigits(rest) == [] then DEFAULT_POS else Number(TakeDigits(rest))
  {
    var s := w + sp + rest;
    assert s == w + (sp + rest);
    WordBefore(w, sp + rest);
    assert s[|w|..] == sp + rest;
    SpacesBefore(sp, rest);
  }

  lemma {:induction false} DropSpacesIs(s: string) returns (sp: string)
    ensures AllSpaces(sp) && s == sp + DropSpaces(s)
  {
    if s != [] && IsSpace(s[0]) {
      sp := DropSpacesIs(s[1..]);
      sp := [s[0]] + sp;
    } else {
      sp := [];
    }
  }

  lemma {:induction false} DropSpacesAtEndIs(s: string) returns (sp: string)
    ensures AllSpaces(sp) && s == DropSpacesAtEnd(s) + sp
  {
    if s != [] && IsSpace(s[|s| - 1]) {
      sp := DropSpacesAtEndIs(s[..|s| - 1]);
      sp := sp + [s[|s| - 1]];
    } else {
      sp := [];
    }
  }

  ghost predicate Padded(line: string, mark: string) {
    exists a, b :: AllSpaces(a) && AllSpaces(b) && line == a + mark + b
  }

  lemma PaddedTrims(line: string, mark: string)
    requires Padded(line, mark) && mark != [] && !IsSpace(mark[0]) && !IsSpace(mark[|mark| - 1])
    ensures Trim(line) == mark
  {
    var a, b :| AllSpaces(a) && AllSpaces(b) && line == a + mark + b;
    SpacesAfter(a + mark, b);
    SpacesBefore(a, mark);
  }

  lemma TrimPads(line: string)
    ensures Padded(line, Trim(line))
  {
    var b := DropSpacesAtEndIs(line);
    var a := DropSpacesIs(DropSpacesAtEnd(line));
    assert line == a + Trim(line) + b;
  }

  /** A line closes a fragment exactly when it is one of the two marks with spaces around it. */
  lemma ClosesExactly(line: string)
    ensures IsEnd(line) <==> Padded(line, "-}") || Padded(line, "*-}")
  {
    TrimPads(line);
    if Padded(line, "-}") { PaddedTrims(line, "-}"); }
    if Padded(line, "*-}") { PaddedTrims(line, "*-}"); }
  }

  lemma {:induction false} WordSplits(s: string) returns (rest: string)
    ensures s == TakeWord(s) + rest && NoSpaces(TakeWord(s)) && (rest != [] ==> IsSpace(rest[0]))
  {
    if s == [] || IsSpace(s[0]) {
      rest := s;
    } else {
      rest := WordSplits(s[1..]);
    }
  }

  /** Equal, or the same letter in the other case. */
  predicate SameLetter(c: char, d: char) {
    || c == d
    || (97 <= c as int <= 122 && c as int == d as int + 32)
    || (97 <= d as int <= 122 && d as int == c as int + 32)
  }

  /** The line begins with the opening mark and the keyword, in any case, as a word of its own. */
  predicate OpensWith(line: string, keyword: string, n: nat) {
    && |keyword| + 3 == n <= |line| && NoSpaces(line[..n]) && (n < |line| ==> IsSpace(line[n]))
    && line[0] == '{' && line[1] == '-' && line[2] == '*'
    && forall i :: 0 <= i < |keyword| ==> SameLetter(line[i + 3], keyword[i])
  }

  lemma UpperSame(c: char, d: char)
    ensures Upper([c]) == Upper([d]) <==> SameLetter(c, d)
  {
    assert Upper([c])[0] == if 'a' <= c <= 'z' then c - 'a' + 'A' else c;
    assert Upper([d])[0] == if 'a' <= d <= 'z' then d - 'a' + 'A' else d;
    assert Upper([c]) == [Upper([c])[0]] && Upper([d]) == [Upper([d])[0]];
  }

  /** A line opens a fragment exactly when its first word is the mark and the keyword, in any case. */
  lemma OpensExactly(keyword: string, line: string)
    ensures IsStart(keyword, line) <==> OpensWith(line, keyword, |keyword| + 3)
  {
    var n := |keyword| + 3;
    var rest := WordSplits(line);
    var w := TakeWord(line);
    if OpensWith(line, keyword, n) {
      assert line == line[..n] + line[n..];
      WordBefore(line[..n], line[n..]);
    }
    if |w| == n { WordMatches(keyword, w); }
  }

  lemma WordMatches(keyword: string, w: string)
    requires |w| == |keyword| + 3
    ensures Upper(w) == "{-*" + Upper(keyword) <==>
      w[0] == '{' && w[1] == '-' && w[2] == '*' && forall i :: 0 <= i < |keyword| ==> SameLetter(w[i + 3], keyword[i])
  {
    var u, v := Upper(w), "{-*" + Upper(keyword);
    assert |u| == |v| == |w|;
    forall i | 0 <= i < |keyword| ensures u[i + 3] == v[i + 3] <==> SameLetter(w[i + 3], keyword[i]) {
      UpperSame(w[i + 3], keyword[i]);
      assert Upper([w[i + 3]])[0] == u[i + 3] && Upper([keyword[i]])[0] == v[i + 3];
    }
    assert (u[0] == '{' <==> w[0] == '{') && (u[1] == '-' <==> w[1] == '-') && (u[2] == '*' <==> w[2] == '*');
    if w[0] == '{' && w[1] == '-' && w[2] == '*' && forall i :: 0 <= i < |keyword| ==> SameLetter(w[i + 3], keyword[i]) {
      forall i | 0 <= i < |w| ensures u[i] == v[i] {
        if i >= 3 { assert SameLetter(w[i - 3 + 3], keyword[i - 3]); }
      }
    }
  }

  /** What the scan sees of a line: its text, whether it opens or closes, and its number. */
  lemma ReadsLine(keyword: string, s: string)
    ensures Read(keyword, s).text == s && Read(keyword, s).pos == ReadPos(s)
    ensures Read(keyword, s).opens <==> OpensWith(s, keyword, |keyword| + 3)
    ensures Read(keyword, s).closes <==> Padded(s, "-}") || Padded(s, "*-}")
  {
    OpensExactly(keyword, s);
    ClosesExactly(s);
  }

  function Read(keyword: string, s: string): (r: Line) {
    Line(s, IsStart(keyword, s), IsEnd(s), ReadPos(s))
  }

  function ReadLines(keyword: string, xs: seq<string>): (r: seq<Line>) {
    seq(|xs|, i requires 0 <= i < |xs| => Read(keyword, xs[i]))
  }

  // ---------------------------------------------------------------- one file

  /** The first opening line from position lo on. */
  function NextOpen(all: seq<Line>, lo: nat): (n: nat)
    requires lo <= |all|
    ensures lo <= n <= |all| && (n < |all| ==> all[n].opens)
    ensures forall j :: lo <= j < n ==> !all[j].opens
    decreases |all| - lo
  {
    if lo == |all| || all[lo].opens then lo else NextOpen(all, lo + 1)
  }

  /** The first closing line from position lo on. */
  function NextClose(all: seq<Line>, lo: nat): (n: nat)
    requires lo <= |all|
    ensures lo <= n <= |all| && (n < |all| ==> all[n].closes)
    ensures forall j :: lo <= j < n ==> !all[j].closes
    decreases |all| - lo
  {
    if lo == |all| || all[lo].closes then lo else NextClose(all, lo + 1)
  }

  function Texts(xs: seq<Line>): (r: seq<OutLine>) {
    seq(|xs|, i requires 0 <= i < |xs| => Text(xs[i].text))
  }

  /** The lines of a fragment whose first line is line `first` of the file, counted from one. */
  function Fragment(name: string, insertLine: bool, first: nat, body: seq<Line>): (r: seq<OutLine>) {
    (if insertLine then [Pragma(first, name)] else []) + Texts(body)
  }

  /** The fragment opened at line n and closed at line m. */
  function Cut(name: string, insertLine: bool, first: nat, all: seq<Line>, n: nat, m: nat): (b: Block)
    requires n < m <= |all|
  {
    Block(all[n].pos, Fragment(name, insertLine, first, all[n + 1..m]))
  }

  /** The fragments of the lines from position lo on; i is the scan's own count of the lines it has passed. */
  function Go(name: string, insertLine: bool, i: nat, all: seq<Line>, lo: nat): (r: seq<Block>)
    requires lo <= |all|
    decreases |all| - lo
  {
    var n := NextOpen(all, lo);
    if n == |all| then [] else
      var m := NextClose(all, n + 1);
      var i' := i + (n - lo);
      [Cut(name, insertLine, i' + 2, all, n, m)] + Go(name, insertLine, i' + 1 + (m - (n + 1)), all, m)
  }

  /** An opening line at `start` whose body runs up to `stop`. */
  datatype Region = Region(start: nat, stop: nat)

  predicate InFile(all: seq<Line>, r: Region) {
    r.start < r.stop <= |all|
  }

  predicate IsRegion(all: seq<Line>, r: Region) {
    && InFile(all, r) && all[r.start].opens
    && (r.stop < |all| ==> all[r.stop].closes)
    && (forall j :: r.start < j < r.stop ==> !all[j].closes)
  }

  predicate OpensAt(all: seq<Line>, j: int) {
    0 <= j < |all| && all[j].opens
  }

  /** Disjoint regions in increasing order that cover every opening line from line `lo` on. */
  ghost predicate AreRegions(all: seq<Line>, lo: nat, rs: seq<Region>) {
    && (forall k :: 0 <= k < |rs| ==> lo <= rs[k].start && IsRegion(all, rs[k]))
    && (forall k, l :: 0 <= k < l < |rs| ==> rs[k].stop <= rs[l].start)
    && (forall j :: lo <= j && OpensAt(all, j) ==> Covered(rs, j))
  }

  ghost predicate Covered(rs: seq<Region>, j: int) {
    exists k :: 0 <= k < |rs| && rs[k].start <= j < rs[k].stop
  }

  /** The fragment of a region: its body with the number of the body's first line. */
  function BlockOf(name: string, all: seq<Line>, insertLine: bool, r: Region): (b: Block)
    requires InFile(all, r)
  {
    Cut(name, insertLine, r.start + 2, all, r.start, r.stop)
  }

  function BlocksOf(name: string, all: seq<Line>, insertLine: bool, rs: seq<Region>): (bs: seq<Block>)
    requires forall r :: r in rs ==> InFile(all, r)
  {
    if rs == [] then []
    else [BlockOf(name, all, insertLine, rs[0])] + BlocksOf(name, all, insertLine, rs[1..])
  }

  function RegionsFrom(all: seq<Line>, lo: nat): (rs: seq<Region>)
    requires lo <= |all|
    ensures forall r :: r in rs ==> InFile(all, r)
    decreases |all| - lo
  {
    var n := NextOpen(all, lo);
    if n == |all| then [] else
      var m := NextClose(all, n + 1);
      [Region(n, m)] + RegionsFrom(all, m)
  }

  lemma NoRegions(all: seq<Line>, lo: nat)
    requires lo <= |all| && NextOpen(all, lo) == |all|
    ensures AreRegions(all, lo, [])
  {
  }

  lemma NextRegion(all: seq<Line>, lo: nat, rest: seq<Region>)
    requires lo <= |all| && NextOpen(all, lo) < |all|
    requires AreRegions(all, NextClose(all, NextOpen(all, lo) + 1), rest)
    ensures AreRegions(all, lo, [Region(NextOpen(all, lo), NextClose(all, NextOpen(all, lo) + 1))] + rest)
  {
    var n := NextOpen(all, lo);
    AddRegion(all, lo, Region(n, NextClose(all, n + 1)), rest);
  }

  ghost predicate CoverFrom(all: seq<Line>, lo: nat)
    requires lo <= |all|
  {
    AreRegions(all, lo, RegionsFrom(all, lo))
  }

  lemma {:induction false} RegionsFromCover(all: seq<Line>, lo: nat)
    requires lo <= |all|
    ensures CoverFrom(all, lo)
    decreases |all| - lo
  {
    var n := NextOpen(all, lo);
    if n == |all| {
      NoRegions(all, lo);
    } else {
      var m := NextClose(all, n + 1);
      RegionsFromCover(all, m);
      NextRegion(all, lo, RegionsFrom(all, m));
    }
  }

  lemma BlocksOfFirst(name: string, all: seq<Line>, insertLine: bool, first: Region, rest: seq<Region>)
    requires InFile(all, first) && forall r :: r in rest ==> InFile(all, r)
    ensures BlocksOf(name, all, insertLine, [first] + rest)
      == [BlockOf(name, all, insertLine, first)] + BlocksOf(name, all, insertLine, rest)
  {
    assert ([first] + rest)[1..] == rest;
  }

  lemma GoUnfold(name: string, insertLine: bool, all: seq<Line>, lo: nat)
    requires lo <= |all| && NextOpen(all, lo) < |all|
    ensures var n := NextOpen(all, lo);
      var m := NextClose(all, n + 1);
      && Go(name, insertLine, lo, all, lo)
        == [BlockOf(name, all, insertLine, Region(n, m))] + Go(name, insertLine, m, all, m)
      && RegionsFrom(all, lo) == [Region(n, m)] + RegionsFrom(all, m)
  {
    var n := NextOpen(all, lo);
    var m := NextClose(all, n + 1);
    assert lo + (n - lo) + 1 + (m - (n + 1)) == m;
  }

  /** The scan's count is the position it has reached, so its numbers are those of the regions. */
  lemma {:induction false} GoCounts(name: string, insertLine: bool, all: seq<Line>, lo: nat)
    requires lo <= |all|
    ensures Go(name, insertLine, lo, all, lo) == BlocksOf(name, all, insertLine, RegionsFrom(all, lo))
    decreases |all| - lo
  {
    var n := NextOpen(all, lo);
    if n < |all| {
      var m := NextClose(all, n + 1);
      GoUnfold(name, insertLine, all, lo);
      BlocksOfFirst(name, all, insertLine, Region(n, m), RegionsFrom(all, m));
      GoCounts(name, insertLine, all, m);
    }
  }

  lemma AddRegion(all: seq<Line>, lo: nat, first: Region, rest: seq<Region>)
    requires lo <= first.start && IsRegion(all, first) && AreRegions(all, first.stop, rest)
    requires forall j :: lo <= j < first.start ==> !OpensAt(all, j)
    ensures AreRegions(all, lo, [first] + rest)
  {
    var rs := [first] + rest;
    forall k | 0 <= k < |rs| ensures lo <= rs[k].start && IsRegion(all, rs[k]) {
      assert rs[k] == if k == 0 then first else rest[k - 1];
    }
    AddCovers(all, lo, first, rest);
  }

  lemma AddCovers(all: seq<Line>, lo: nat, first: Region, rest: seq<Region>)
    requires first.start < |all|
    requires forall j :: lo <= j < first.start ==> !OpensAt(all, j)
    requires forall j :: first.stop <= j && OpensAt(all, j) ==> Covered(rest, j)
    ensures forall j :: lo <= j && OpensAt(all, j) ==> Covered([first] + rest, j)
  {
    var rs := [first] + rest;
    forall j | lo <= j && OpensAt(all, j) ensures Covered(rs, j) {
      if j < first.stop {
        assert rs[0].start <= j < rs[0].stop;
      } else {
        assert Covered(rest, j);
        var k :| 0 <= k < |rest| && rest[k].start <= j < rest[k].stop;
        assert rs[k + 1] == rest[k];
      }
    }
  }

  /** Only one list of regions covers the opening lines of a file. */
  lemma {:induction false} RegionsUnique(all: seq<Line>, lo: nat, rs: seq<Region>, qs: seq<Region>)
    requires lo <= |all| && AreRegions(all, lo, rs) && AreRegions(all, lo, qs)
    ensures rs == qs
    decreases |rs|
  {
    if qs != [] { SomeRegion(all, lo, rs, qs); }
    if rs != [] {
      SomeRegion(all, lo, qs, rs);
      HeadRegion(all, lo, rs);
      HeadRegion(all, lo, qs);
      RegionsUnique(all, rs[0].stop, rs[1..], qs[1..]);
      assert rs == [rs[0]] + rs[1..] && qs == [qs[0]] + qs[1..];
    }
  }

  lemma SomeRegion(all: seq<Line>, lo: nat, rs: seq<Region>, qs: seq<Region>)
    requires AreRegions(all, lo, rs) && AreRegions(all, lo, qs) && qs != []
    ensures rs != []
  {
    assert IsRegion(all, qs[0]);
    assert OpensAt(all, qs[0].start);
    assert Covered(rs, qs[0].start);
  }

  lemma HeadRegion(all: seq<Line>, lo: nat, rs: seq<Region>)
    requires lo <= |all| && AreRegions(all, lo, rs) && rs != []
    ensures var n := NextOpen(all, lo); n < |all| && rs[0] == Region(n, NextClose(all, n + 1))
    ensures AreRegions(all, rs[0].stop, rs[1..])
  {
    var n := NextOpen(all, lo);
    assert IsRegion(all, rs[0]);
    assert OpensAt(all, rs[0].start) && OpensAt(all, n);
    assert Covered(rs, n);
    SameEnd(all, rs[0], Region(n, NextClose(all, n + 1)));
    forall j | rs[0].stop <= j && OpensAt(all, j) ensures Covered(rs[1..], j) {
      assert Covered(rs, j);
      var k :| 0 <= k < |rs| && rs[k].start <= j < rs[k].stop;
      assert rs[1..][k - 1] == rs[k];
    }
  }

  lemma SameEnd(all: seq<Line>, r: Region, q: Region)
    requires IsRegion(all, r) && IsRegion(all, q) && r.start == q.start
    ensures r == q
  {
  }

  /**
   The fragment of a region: its number is that of the opening line, its lines are
   the ones after it up to the closing line, both marks left out, and the `#line`
   line before them carries the number of the first of them, counted from one.
   */
  lemma BlockContents(name: string, all: seq<Line>, insertLine: bool, r: Region)
    requires InFile(all, r)
    ensures var b, h := BlockOf(name, all, insertLine, r), if insertLine then 1 else 0;
      && b.pos == all[r.start].pos && |b.lines| == h + (r.stop - r.start - 1)
      && (insertLine ==> b.lines[0] == Pragma(r.start + 2, name))
      && (forall j :: r.start < j < r.stop ==> b.lines[h + (j - r.start - 1)] == Text(all[j].text))
  {
  }

  lemma {:induction false} BlocksOfAt(name: string, all: seq<Line>, insertLine: bool, rs: seq<Region>)
    requires forall r :: r in rs ==> InFile(all, r)
    ensures |BlocksOf(name, all, insertLine, rs)| == |rs|
    ensures forall k :: 0 <= k < |rs| ==> BlocksOf(name, all, insertLine, rs)[k] == BlockOf(name, all, insertLine, rs[k])
  {
    if rs != [] {
      BlocksOfAt(name, all, insertLine, rs[1..]);
      forall k | 0 < k < |rs| ensures BlocksOf(name, all, insertLine, rs)[k] == BlockOf(name, all, insertLine, rs[k]) {
        assert rs[1..][k - 1] == rs[k];
      }
    }
  }

  /** The fragments of a file: those of its only list of regions. */
  lemma ExtractsRegions(name: string, all: seq<Line>, insertLine: bool, rs: seq<Region>)
    requires AreRegions(all, 0, rs) && forall r :: r in rs ==> InFile(all, r)
    ensures Go(name, insertLine, 0, all, 0) == BlocksOf(name, all, insertLine, rs)
  {
    GoCounts(name, insertLine, all, 0);
    RegionsFromCover(all, 0);
    RegionsUnique(all, 0, rs, RegionsFrom(all, 0));
  }

  // ---------------------------------------------------------------- the sort

  function Insert(b: Block, bs: seq<Block>): (r: seq<Block>) {
    if bs == [] || b.pos <= bs[0].pos then [b] + bs else [bs[0]] + Insert(b, bs[1..])
  }

  function Sort(bs: seq<Block>): (r: seq<Block>) {
    if bs == [] then [] else Insert(bs[0], Sort(bs[1..]))
  }

  predicate Sorted(bs: seq<Block>) {
    forall i, j :: 0 <= i < j < |bs| ==> bs[i].pos <= bs[j].pos
  }

  function WithPos(bs: seq<Block>, pos: nat): (r: seq<Block>) {
    if bs == [] then [] else (if bs[0].pos == pos then [bs[0]] else []) + WithPos(bs[1..], pos)
  }

  /** The same blocks under each number, in the same order. */
  ghost predicate SameGroups(a: seq<Block>, b: seq<Block>) {
    forall pos: nat :: WithPos(a, pos) == WithPos(b, pos)
  }

  lemma {:induction false} InsertIsStable(b: Block, bs: seq<Block>)
    requires Sorted(bs)
    ensures Sorted(Insert(b, bs)) && SameGroups(Insert(b, bs), [b] + bs)
    ensures forall c :: c in Insert(b, bs) ==> c == b || c in bs
  {
    assert ([b] + bs)[1..] == bs;
    if bs != [] && bs[0].pos < b.pos {
      var rest := bs[1..];
      InsertIsStable(b, rest);
      var r := Insert(b, rest);
      assert ([bs[0]] + r)[1..] == r && ([b] + rest)[1..] == rest;
      forall pos: nat ensures WithPos([bs[0]] + r, pos) == WithPos([b] + bs, pos) {
        assert WithPos(r, pos) == WithPos([b] + rest, pos);
      }
    }
  }

  lemma {:induction false} SortIsStable(bs: seq<Block>)
    ensures Sorted(Sort(bs)) && SameGroups(Sort(bs), bs)
  {
    if bs != [] {
      SortIsStable(bs[1..]);
      var r := Sort(bs[1..]);
      InsertIsStable(bs[0], r);
      forall pos: nat ensures WithPos(Sort(bs), pos) == WithPos(bs, pos) {
        assert ([bs[0]] + r)[1..] == r;
        assert WithPos(Sort(bs), pos) == WithPos([bs[0]] + r, pos);
      }
    }
  }

  /** Sorted order and the order within each number leave one result, so any stable sort gives it. */
  lemma {:induction false} StableSortUnique(a: seq<Block>, b: seq<Block>)
    requires Sorted(a) && Sorted(b) && SameGroups(a, b)
    ensures a == b
    decreases |a|
  {
    if b != [] { assert WithPos(a, b[0].pos) == WithPos(b, b[0].pos) != []; }
    if a != [] {
      assert WithPos(a, a[0].pos) == WithPos(b, a[0].pos);
      SmallestIsFirst(b, a[0].pos);
      assert WithPos(a, b[0].pos) == WithPos(b, b[0].pos);
      SmallestIsFirst(a, b[0].pos);
      WithPosTail(a, a[0].pos);
      WithPosTail(b, a[0].pos);
      assert a[0] == WithPos(a, a[0].pos)[0] == b[0];
      forall pos: nat ensures WithPos(a[1..], pos) == WithPos(b[1..], pos) {
        assert WithPos(a, pos) == WithPos(b, pos);
        WithPosTail(a, pos);
        WithPosTail(b, pos);
      }
      StableSortUnique(a[1..], b[1..]);
      assert a == [a[0]] + a[1..] && b == [b[0]] + b[1..];
    }
  }

  lemma WithPosTail(bs: seq<Block>, pos: nat)
    requires bs != []
    ensures if bs[0].pos == pos then WithPos(bs, pos) == [bs[0]] + WithPos(bs[1..], pos)
      else WithPos(bs, pos) == WithPos(bs[1..], pos)
    ensures bs[0].pos == pos ==> WithPos(bs, pos)[1..] == WithPos(bs[1..], pos)
  {
  }

  lemma {:induction false} SmallestIsFirst(bs: seq<Block>, pos: nat)
    requires Sorted(bs) && WithPos(bs, pos) != []
    ensures bs != [] && bs[0].pos <= pos
  {
    if bs[0].pos != pos { SmallestIsFirst(bs[1..], pos); }
  }

  // ---------------------------------------------------------------- the whole program

  function AllBlocks(files: seq<File>, keyword: string, insertLine: bool): (r: seq<Block>) {
    if files == [] then []
    else Go(files[0].name, insertLine, 0, ReadLines(keyword, files[0].lines), 0) + AllBlocks(files[1..], keyword, insertLine)
  }

  function Flatten(bs: seq<Block>): (r: seq<OutLine>) {
    if bs == [] then [] else bs[0].lines + Flatten(bs[1..])
  }

  /** The lines printed; with none the original fails, as it drops the last character of an empty text. */
  function Extract(files: seq<File>, keyword: string, insertLine: bool): (r: seq<OutLine>) {
    Flatten(Sort(AllBlocks(files, keyword, insertLine)))
  }

  lemma {:induction false} AllBlocksConcat(xs: seq<File>, ys: seq<File>, keyword: string, insertLine: bool)
    ensures AllBlocks(xs + ys, keyword, insertLine) == AllBlocks(xs, keyword, insertLine) + AllBlocks(ys, keyword, insertLine)
  {
    if xs == [] {
      assert xs + ys == ys;
    } else {
      assert (xs + ys)[1..] == xs[1..] + ys;
      AllBlocksConcat(xs[1..], ys, keyword, insertLine);
      var g := Go(xs[0].name, insertLine, 0, ReadLines(keyword, xs[0].lines), 0);
      assert g + (AllBlocks(xs[1..], keyword, insertLine) + AllBlocks(ys, keyword, insertLine))
          == (g + AllBlocks(xs[1..], keyword, insertLine)) + AllBlocks(ys, keyword, insertLine);
    }
  }

  ghost predicate RegionsOfFile(file: File, keyword: string, rs: seq<Region>) {
    AreRegions(ReadLines(keyword, file.lines), 0, rs) && forall r :: r in rs ==> InFile(ReadLines(keyword, file.lines), r)
  }

  /** The fragments of a file whose regions are rs. */
  ghost function FileBlocks(file: File, keyword: string, insertLine: bool, rs: seq<Region>): (bs: seq<Block>)
    requires RegionsOfFile(file, keyword, rs)
  {
    BlocksOf(file.name, ReadLines(keyword, file.lines), insertLine, rs)
  }

  /** One file gives the fragments of its regions. */
  lemma AllBlocksOne(file: File, keyword: string, insertLine: bool, rs: seq<Region>)
    requires RegionsOfFile(file, keyword, rs)
    ensures AllBlocks([file], keyword, insertLine) == FileBlocks(file, keyword, insertLine, rs)
  {
    assert [file][1..] == [];
    ExtractsRegions(file.name, ReadLines(keyword, file.lines), insertLine, rs);
  }

  lemma {:induction false} FlattenConcat(bs: seq<Block>, cs: seq<Block>)
    ensures Flatten(bs + cs) == Flatten(bs) + Flatten(cs)
  {
    if bs == [] {
      assert bs + cs == cs;
    } else {
      assert (bs + cs)[1..] == bs[1..] + cs;
      FlattenConcat(bs[1..], cs);
      assert bs[0].lines + (Flatten(bs[1..]) + Flatten(cs)) == (bs[0].lines + Flatten(bs[1..])) + Flatten(cs);
    }
  }

  lemma FlattenOne(b: Block)
    ensures Flatten([b]) == b.lines
  {
    assert [b][1..] == [];
  }

  /** The line closes a fragment. */
  ghost predicate ClosesWith(line: string) {
    Padded(line, "-}") || Padded(line, "*-}")
  }

  /** A region goes from a line that opens with the keyword to the next closing line or the end. */
  lemma RegionText(file: File, keyword: string, r: Region)
    requires r.start < r.stop <= |file.lines|
    ensures IsRegion(ReadLines(keyword, file.lines), r) <==>
      && OpensWith(file.lines[r.start], keyword, |keyword| + 3)
      && (r.stop < |file.lines| ==> ClosesWith(file.lines[r.stop]))
      && (forall j :: r.start < j < r.stop ==> !ClosesWith(file.lines[j]))
  {
    var all := ReadLines(keyword, file.lines);
    ReadsLine(keyword, file.lines[r.start]);
    forall j | 0 <= j < |file.lines| ensures all[j].closes <==> ClosesWith(file.lines[j]) {
      ReadsLine(keyword, file.lines[j]);
    }
  }

  /**
   Fragment k of a file, told from the text of the file. Its number is read from the
   opening line of its region, and its lines are those strictly between the opening
   and the closing line, after a `#line` line with the number of the first of them,
   counted from one, if asked for.
   */
  lemma FragmentText(file: File, keyword: string, insertLine: bool, rs: seq<Region>, k: nat)
    requires RegionsOfFile(file, keyword, rs) && k < |rs|
    ensures |FileBlocks(file, keyword, insertLine, rs)| == |rs| && rs[k].start < rs[k].stop <= |file.lines|
    ensures FragmentOf(file, insertLine, rs[k], ReadPos(file.lines[rs[k].start]), FileBlocks(file, keyword, insertLine, rs)[k])
  {
    var all := ReadLines(keyword, file.lines);
    assert rs[k] in rs;
    BlocksOfAt(file.name, all, insertLine, rs);
    BlockText(file, all, insertLine, rs[k]);
  }

  lemma BlockText(file: File, all: seq<Line>, insertLine: bool, r: Region)
    requires |all| == |file.lines| && forall j :: 0 <= j < |all| ==> all[j].text == file.lines[j]
    requires InFile(all, r)
    ensures FragmentOf(file, insertLine, r, all[r.start].pos, BlockOf(file.name, all, insertLine, r))
  {
    BlockContents(file.name, all, insertLine, r);
  }

  ghost predicate FragmentOf(file: File, insertLine: bool, r: Region, pos: nat, b: Block)
    requires r.start < r.stop <= |file.lines|
  {
    var h := if insertLine then 1 else 0;
    && b.pos == pos && |b.lines| == h + (r.stop - r.start - 1)
    && (insertLine ==> b.lines[0] == Pragma(r.start + 2, file.name))
    && (forall j :: r.start < j < r.stop ==> b.lines[h + (j - r.start - 1)] == Text(file.lines[j]))
  }

  /** rss[i] is the list of regions of file i. */
  ghost predicate RegionsOfFiles(files: seq<File>, keyword: string, rss: seq<seq<Region>>) {
    |rss| == |files| && forall i :: 0 <= i < |files| ==> RegionsOfFile(files[i], keyword, rss[i])
  }

  function Join(bss: seq<seq<Block>>): (bs: seq<Block>) {
    if bss == [] then [] else Join(bss[..|bss| - 1]) + bss[|bss| - 1]
  }

  /** The fragments of the files, file after file. */
  ghost function InputOrder(files: seq<File>, keyword: string, insertLine: bool, rss: seq<seq<Region>>): (bs: seq<Block>)
    requires RegionsOfFiles(files, keyword, rss)
  {
    Join(seq(|files|, i requires 0 <= i < |files| => FileBlocks(files[i], keyword, insertLine, rss[i])))
  }

  /** The file alone gives these fragments. */
  predicate Alone(file: File, keyword: string, insertLine: bool, bs: seq<Block>) {
    AllBlocks([file], keyword, insertLine) == bs
  }

  lemma OneMoreFile(xs: seq<File>, file: File, keyword: string, insertLine: bool, bs: seq<Block>)
    requires Alone(file, keyword, insertLine, bs)
    ensures AllBlocks(xs + [file], keyword, insertLine) == AllBlocks(xs, keyword, insertLine) + bs
  {
    AllBlocksConcat(xs, [file], keyword, insertLine);
  }

  lemma {:induction false} AllBlocksJoin(files: seq<File>, keyword: string, insertLine: bool, bss: seq<seq<Block>>)
    requires |bss| == |files| && forall i :: 0 <= i < |files| ==> Alone(files[i], keyword, insertLine, bss[i])
    ensures AllBlocks(files, keyword, insertLine) == Join(bss)
    decreases |files|
  {
    if files != [] {
      var xs, file := files[..|files| - 1], files[|files| - 1];
      AllBlocksJoin(xs, keyword, insertLine, bss[..|files| - 1]);
      OneMoreFile(xs, file, keyword, insertLine, bss[|files| - 1]);
      assert files == xs + [file];
    }
  }

  lemma AllBlocksInOrder(files: seq<File>, keyword: string, insertLine: bool, rss: seq<seq<Region>>)
    requires RegionsOfFiles(files, keyword, rss)
    ensures AllBlocks(files, keyword, insertLine) == InputOrder(files, keyword, insertLine, rss)
  {
    var bss := seq(|files|, i requires 0 <= i < |files| => FileBlocks(files[i], keyword, insertLine, rss[i]));
    forall i | 0 <= i < |files| ensures Alone(files[i], keyword, insertLine, bss[i]) {
      AllBlocksOne(files[i], keyword, insertLine, rss[i]);
    }
    AllBlocksJoin(files, keyword, insertLine, bss);
  }

  function FileRegions(file: File, keyword: string): (rs: seq<Region>) {
    RegionsFrom(ReadLines(keyword, file.lines), 0)
  }

  lemma FileHasRegions(file: File, keyword: string)
    ensures RegionsOfFile(file, keyword, FileRegions(file, keyword))
  {
    RegionsFromCover(ReadLines(keyword, file.lines), 0);
  }

  /** Every list of files has its lists of regions. */
  lemma FilesHaveRegions(files: seq<File>, keyword: string) returns (rss: seq<seq<Region>>)
    ensures RegionsOfFiles(files, keyword, rss)
  {
    rss := seq(|files|, i requires 0 <= i < |files| => FileRegions(files[i], keyword));
    forall i | 0 <= i < |files| ensures RegionsOfFile(files[i], keyword, rss[i]) {
      FileHasRegions(files[i], keyword);
    }
  }

  /** Any arrangement by number that keeps the order of equal numbers is what is printed. */
  lemma StableOrder(files: seq<File>, keyword: string, insertLine: bool, bs: seq<Block>)
    requires Sorted(bs) && SameGroups(bs, AllBlocks(files, keyword, insertLine))
    ensures Extract(files, keyword, insertLine) == Flatten(bs)
  {
    var all := AllBlocks(files, keyword, insertLine);
    SortIsStable(all);
    assert SameGroups(bs, Sort(all)) by {
      forall pos: nat ensures WithPos(bs, pos) == WithPos(Sort(all), pos) {
        assert WithPos(bs, pos) == WithPos(all, pos);
      }
    }
    StableSortUnique(bs, Sort(all));
  }

  /**
   What is printed: the fragments of all regions of all files, arranged by number,
   those with one number in the order of the files given and of the lines in them.
   */
  lemma OutputIsStableOrder(files: seq<File>, keyword: string, insertLine: bool, rss: seq<seq<Region>>, bs: seq<Block>)
    requires RegionsOfFiles(files, keyword, rss)
    requires Sorted(bs) && SameGroups(bs, InputOrder(files, keyword, insertLine, rss))
    ensures Extract(files, keyword, insertLine) == Flatten(bs)
  {
    AllBlocksInOrder(files, keyword, insertLine, rss);
    StableOrder(files, keyword, insertLine, bs);
  }

  function WithoutPragmas(xs: seq<OutLine>): (r: seq<OutLine>) {
    if xs == [] then [] else (if xs[0].Text? then [xs[0]] else []) + WithoutPragmas(xs[1..])
  }

  function Plain(b: Block): (r: Block) {
    Block(b.pos, WithoutPragmas(b.lines))
  }

  function Plains(bs: seq<Block>): (r: seq<Block>) {
    if bs == [] then [] else [Plain(bs[0])] + Plains(bs[1..])
  }

  lemma {:induction false} PlainsConcat(bs: seq<Block>, cs: seq<Block>)
    ensures Plains(bs + cs) == Plains(bs) + Plains(cs)
  {
    if bs == [] {
      assert bs + cs == cs;
    } else {
      assert (bs + cs)[1..] == bs[1..] + cs;
      PlainsConcat(bs[1..], cs);
      var h := [Plain(bs[0])];
      assert h + (Plains(bs[1..]) + Plains(cs)) == (h + Plains(bs[1..])) + Plains(cs);
    }
  }

  lemma {:induction false} WithoutPragmasConcat(xs: seq<OutLine>, ys: seq<OutLine>)
    ensures WithoutPragmas(xs + ys) == WithoutPragmas(xs) + WithoutPragmas(ys)
  {
    if xs == [] {
      assert xs + ys == ys;
    } else {
      assert (xs + ys)[1..] == xs[1..] + ys;
      WithoutPragmasConcat(xs[1..], ys);
      var h := if xs[0].Text? then [xs[0]] else [];
      assert h + (WithoutPragmas(xs[1..]) + WithoutPragmas(ys)) == (h + WithoutPragmas(xs[1..])) + WithoutPragmas(ys);
    }
  }

  lemma {:induction false} TextsStay(xs: seq<Line>)
    ensures WithoutPragmas(Texts(xs)) == Texts(xs)
  {
    if xs != [] {
      TextsStay(xs[1..]);
      assert Texts(xs)[1..] == Texts(xs[1..]);
    }
  }

  lemma FragmentPlain(name: string, first: nat, body: seq<Line>)
    ensures WithoutPragmas(Fragment(name, true, first, body)) == Fragment(name, false, first, body)
  {
    TextsStay(body);
    assert Fragment(name, true, first, body)[1..] == Texts(body);
    assert Fragment(name, false, first, body) == Texts(body);
  }

  lemma {:induction false} BlocksPlain(name: string, all: seq<Line>, rs: seq<Region>)
    requires forall r :: r in rs ==> InFile(all, r)
    ensures Plains(BlocksOf(name, all, true, rs)) == BlocksOf(name, all, false, rs)
  {
    if rs != [] {
      BlocksPlain(name, all, rs[1..]);
      assert InFile(all, rs[0]);
      FragmentPlain(name, rs[0].start + 2, all[rs[0].start + 1..rs[0].stop]);
      PlainsConcat([BlockOf(name, all, true, rs[0])], BlocksOf(name, all, true, rs[1..]));
    }
  }

  lemma GoPlain(name: string, all: seq<Line>)
    ensures Plains(Go(name, true, 0, all, 0)) == Go(name, false, 0, all, 0)
  {
    GoCounts(name, true, all, 0);
    GoCounts(name, false, all, 0);
    BlocksPlain(name, all, RegionsFrom(all, 0));
  }

  lemma {:induction false} AllBlocksPlain(files: seq<File>, keyword: string)
    ensures Plains(AllBlocks(files, keyword, true)) == AllBlocks(files, keyword, false)
  {
    if files != [] {
      AllBlocksPlain(files[1..], keyword);
      var lines := ReadLines(keyword, files[0].lines);
      GoPlain(files[0].name, lines);
      PlainsConcat(Go(files[0].name, true, 0, lines, 0), AllBlocks(files[1..], keyword, true));
    }
  }

  lemma {:induction false} InsertPlain(b: Block, bs: seq<Block>)
    ensures Plains(Insert(b, bs)) == Insert(Plain(b), Plains(bs))
  {
    if bs != [] {
      InsertPlain(b, bs[1..]);
      PlainsConcat([bs[0]], Insert(b, bs[1..]));
      PlainsConcat([b], bs);
    }
  }

  lemma {:induction false} SortPlain(bs: seq<Block>)
    ensures Plains(Sort(bs)) == Sort(Plains(bs))
  {
    if bs != [] {
      SortPlain(bs[1..]);
      InsertPlain(bs[0], Sort(bs[1..]));
    }
  }

  lemma {:induction false} FlattenPlain(bs: seq<Block>)
    ensures Flatten(Plains(bs)) == WithoutPragmas(Flatten(bs))
  {
    if bs != [] {
      FlattenPlain(bs[1..]);
      WithoutPragmasConcat(bs[0].lines, Flatten(bs[1..]));
      assert Plains(bs)[1..] == Plains(bs[1..]);
    }
  }

  /** The `-x` option erases the `#line` lines from the output and changes nothing else. */
  lemma SuppressErasesPragmas(files: seq<File>, keyword: string)
    ensures Extract(files, keyword, false) == WithoutPragmas(Extract(files, keyword, true))
  {
    var bs := AllBlocks(files, keyword, true);
    AllBlocksPlain(files, keyword);
    SortPlain(bs);
    FlattenPlain(Sort(bs));
  }
}
