/**
 * The dataset builder for the "full text search anything" Alfred workflow:
 * it scans a Sphinx documentation tree for every `.rst` and `.ipynb` file,
 * takes each page's title and `Keywords:` line, and turns each page into a
 * row `{title, search, url}` pointing at the page's rendered `<stem>.html`
 * on Read the Docs.
 *
 * File contents arrive already read: an rst page as its lines (Python's
 * `read_text().splitlines()`), a notebook as its parsed cells.
 */
module FtsDataset {
  import opened Wrappers
  import opened Strings

  // ---------------------------------------------------------------------------
  // Tokens

  /** `list(",;.")` */
  const DefaultDelimiters: seq<char> := [',', ';', '.']

  function CharsOf(ds: seq<char>): set<char> {
    set c | c in ds
  }

  /** `s` with every character of `cs` replaced by a space. */
  function Blank(s: string, cs: set<char>): (r: string)
    ensures |r| == |s|
    ensures forall i :: 0 <= i < |s| && s[i] !in cs ==> r[i] == s[i]
    ensures forall i :: 0 <= i < |r| && r[i] in cs ==> r[i] == ' '
  {
    seq(|s|, i requires 0 <= i < |s| => if s[i] in cs then ' ' else s[i])
  }

  /**
   * What `tokenize(s, ds)` returns, stated without the rewriting: the
   * non-empty maximal runs of characters that are neither whitespace nor one
   * of the delimiters.
   */
  function Tokens(s: string, ds: seq<char>): seq<string> {
    DropEmpty(SplitOn(s, Whitespace + CharsOf(ds)))
  }

  /**
   * `tokenize`: every delimiter replaced by a space, one `str.replace` per
   * delimiter, then `split()` and the `if word` filter. A missing delimiter
   * list means `DEFAULT_DELIMITERS`.
   */
  method Tokenize(s: string, delimiters: Option<seq<char>>) returns (words: seq<string>)
    ensures words == Tokens(s, if delimiters.Some? then delimiters.value else DefaultDelimiters)
  {
    var ds := if delimiters.None? then DefaultDelimiters else delimiters.value;
    var t := s;
    for k := 0 to |ds|
      invariant t == Blank(s, CharsOf(ds[..k]))
    {
      BlankTwice(s, CharsOf(ds[..k]), ds[k]);
      assert CharsOf(ds[..k + 1]) == CharsOf(ds[..k]) + {ds[k]} by {
        assert ds[..k + 1] == ds[..k] + [ds[k]];
      }
      t := Blank(t, {ds[k]});
    }
    assert ds[..|ds|] == ds;
    words := DropEmpty(Words(t));
    SplitBlank(s, CharsOf(ds));
    DropEmptyIdempotent(SplitOn(s, Whitespace + CharsOf(ds)));
  }

  lemma BlankTwice(s: string, cs: set<char>, d: char)
    ensures Blank(Blank(s, cs), {d}) == Blank(s, cs + {d})
  {
  }

  /** Splitting on whitespace after blanking `cs` is splitting on whitespace and `cs` at once. */
  lemma {:induction false} SplitBlank(s: string, cs: set<char>)
    ensures SplitOn(Blank(s, cs), Whitespace) == SplitOn(s, Whitespace + cs)
  {
    if s != [] {
      assert Blank(s, cs)[1..] == Blank(s[1..], cs);
      SplitBlank(s[1..], cs);
      assert Blank(s, cs)[0] in Whitespace <==> s[0] in Whitespace + cs;
      if s[0] !in Whitespace + cs {
        assert Blank(s, cs)[0] == s[0];
      }
    }
  }

  /**
   * The tokens are non-empty, hold no whitespace and no delimiter, and in
   * order spell `s` with its whitespace and delimiters taken out.
   */
  lemma TokensSpec(s: string, ds: seq<char>)
    ensures forall i :: 0 <= i < |Tokens(s, ds)| ==> Tokens(s, ds)[i] != ""
    ensures forall i, c :: 0 <= i < |Tokens(s, ds)| && c in Tokens(s, ds)[i] ==>
      c in s && c !in Whitespace && c !in ds
    ensures Concat(Tokens(s, ds)) == Without(s, Whitespace + CharsOf(ds))
  {
    TokensChars(s, ds);
    TokensConcat(s, ds);
  }

  lemma TokensChars(s: string, ds: seq<char>)
    ensures forall i, c :: 0 <= i < |Tokens(s, ds)| && c in Tokens(s, ds)[i] ==>
      c in s && c !in Whitespace && c !in ds
  {
    var seps := Whitespace + CharsOf(ds);
    var pieces := SplitOn(s, seps);
    var t := DropEmpty(pieces);
    forall i, c | 0 <= i < |t| && c in t[i]
      ensures c in s && c !in Whitespace && c !in ds
    {
      var k :| 0 <= k < |pieces| && pieces[k] == t[i];
      assert c in s && c !in seps;
      assert c in ds ==> c in CharsOf(ds);
    }
  }

  lemma TokensConcat(s: string, ds: seq<char>)
    ensures Concat(Tokens(s, ds)) == Without(s, Whitespace + CharsOf(ds))
  {
    ConcatSplitOn(s, Whitespace + CharsOf(ds));
    ConcatDropEmpty(SplitOn(s, Whitespace + CharsOf(ds)));
  }

  // ---------------------------------------------------------------------------
  // Title and keywords of one page

  datatype ExtractError = FailedToExtractTitleAndKeywords | UnknownIndexFileType

  /** rst pages underline their title; notebook markdown cells prefix it. */
  datatype Format = Rst | Markdown

  /** `"=" * 40` */
  const Header1Rst: string := "========================================"

  const Header1Md: string := "# "

  const KeywordsPrefix: string := "keywords: "

  /** `"keywords: "` read as the character set `str.lstrip` takes. */
  const KeywordsChars: set<char> := {'k', 'e', 'y', 'w', 'o', 'r', 'd', 's', ':', ' '}

  predicate IsHeader(fmt: Format, line: string) {
    match fmt
    case Rst => StartsWith(line, Header1Rst)
    case Markdown => StartsWith(line, Header1Md)
  }

  /** Python's `xs[i]`, where a negative `i` counts from the end. */
  function PyIndex<T>(xs: seq<T>, i: int): T
    requires -|xs| <= i < |xs|
  {
    if i < 0 then xs[|xs| + i] else xs[i]
  }

  /** Python's `s[n:]`, which is empty when `s` is shorter than `n`. */
  function DropPrefix(s: string, n: nat): (r: string)
    ensures |s| >= n ==> s[..n] + r == s
    ensures |s| <= n ==> r == ""
  {
    if |s| <= n then "" else s[n..]
  }

  /**
   * The title a header at line `j` gives: for rst the line above the
   * underline (`lines[j - 1]`, the last line when `j` is 0); for markdown
   * the header line without `"# "`, stripped.
   */
  function TitleAt(fmt: Format, lines: seq<string>, j: nat): string
    requires j < |lines|
  {
    match fmt
    case Rst => PyIndex(lines, j - 1)
    case Markdown => Strip(DropPrefix(lines[j], 2))
  }

  /** The last header among the first `n` lines. */
  function LastHeader(fmt: Format, lines: seq<string>, n: nat): (r: Option<nat>)
    requires n <= |lines|
    ensures r.Some? ==> r.value < n && IsHeader(fmt, lines[r.value])
  {
    if n == 0 then None
    else if IsHeader(fmt, lines[n - 1]) then Some(n - 1)
    else LastHeader(fmt, lines, n - 1)
  }

  /** `LastHeader` finds the last header: no header follows it, and it finds none only when there is none. */
  lemma {:induction false} LastHeaderIsLast(fmt: Format, lines: seq<string>, n: nat)
    requires n <= |lines|
    ensures var r := LastHeader(fmt, lines, n);
      (r.Some? ==> forall k :: r.value < k < n ==> !IsHeader(fmt, lines[k]))
      && (r.None? <==> forall k :: 0 <= k < n ==> !IsHeader(fmt, lines[k]))
  {
    if n > 0 && !IsHeader(fmt, lines[n - 1]) {
      LastHeaderIsLast(fmt, lines, n - 1);
    }
  }

  /** The title known once the first `n` lines are read: a later header overrides an earlier one. */
  function TitleUpTo(fmt: Format, lines: seq<string>, n: nat): Option<string>
    requires n <= |lines|
  {
    match LastHeader(fmt, lines, n)
    case None => None
    case Some(j) => Some(TitleAt(fmt, lines, j))
  }

  predicate IsKeywordsLine(line: string) {
    StartsWith(Lower(line), KeywordsPrefix)
  }

  /** `tokenize(line.lower().lstrip("keywords: "))` */
  function KeywordsOf(line: string): seq<string> {
    Tokens(LStrip(Lower(line), KeywordsChars), DefaultDelimiters)
  }

  /** Line `i` ends the scan: it is a keywords line and a title is known by then. */
  predicate Hit(fmt: Format, lines: seq<string>, i: nat)
    requires i < |lines|
  {
    IsKeywordsLine(lines[i]) && LastHeader(fmt, lines, i + 1).Some?
  }

  /** The first line among the first `n` that ends the scan. */
  function FirstHit(fmt: Format, lines: seq<string>, n: nat): (r: Option<nat>)
    requires n <= |lines|
    ensures r.Some? ==> r.value < n && Hit(fmt, lines, r.value)
  {
    if n == 0 then None
    else
      var p := FirstHit(fmt, lines, n - 1);
      if p.Some? then p else if Hit(fmt, lines, n - 1) then Some(n - 1) else None
  }

  /** `FirstHit` finds the first hit, and finds none only when there is none. */
  lemma {:induction false} FirstHitIsFirst(fmt: Format, lines: seq<string>, n: nat)
    requires n <= |lines|
    ensures var r := FirstHit(fmt, lines, n);
      (r.Some? ==> forall k :: 0 <= k < r.value ==> !Hit(fmt, lines, k))
      && (r.None? <==> forall k :: 0 <= k < n ==> !Hit(fmt, lines, k))
  {
    if n > 0 {
      FirstHitIsFirst(fmt, lines, n - 1);
    }
  }

  /** Once found, the first hit stays the first hit however many more lines are read. */
  lemma {:induction false} FirstHitStays(fmt: Format, lines: seq<string>, m: nat, n: nat)
    requires m <= n <= |lines| && FirstHit(fmt, lines, m).Some?
    ensures FirstHit(fmt, lines, n) == FirstHit(fmt, lines, m)
    decreases n
  {
    if m < n {
      FirstHitStays(fmt, lines, m, n - 1);
    }
  }

  /**
   * What scanning a page's lines gives: the title and keywords at the first
   * keywords line that has a title above it; otherwise the last title with
   * no keywords; with no title at all, `FailedToExtractTitleAndKeywords`.
   */
  function ScanOutcome(fmt: Format, lines: seq<string>): Result<(string, seq<string>), ExtractError> {
    match FirstHit(fmt, lines, |lines|)
    case Some(i) => Success((TitleAt(fmt, lines, LastHeader(fmt, lines, i + 1).value), KeywordsOf(lines[i])))
    case None =>
      match TitleUpTo(fmt, lines, |lines|)
      case Some(title) => Success((title, []))
      case None => Failure(FailedToExtractTitleAndKeywords)
  }

  /**
   * The line loop both extractors run: a header line sets the title, and a
   * line that lowercased starts with `"keywords: "` returns at once when a
   * title is known.
   */
  method ScanLines(fmt: Format, lines: seq<string>) returns (r: Result<(string, seq<string>), ExtractError>)
    ensures r == ScanOutcome(fmt, lines)
  {
    var title: Option<string> := None;
    for ind := 0 to |lines|
      invariant title == TitleUpTo(fmt, lines, ind)
      invariant FirstHit(fmt, lines, ind) == None
    {
      ScanStep(fmt, lines, ind);
      var line := lines[ind];
      if IsHeader(fmt, line) {
        title := Some(TitleAt(fmt, lines, ind));
      }
      line := Lower(line);
      if StartsWith(line, KeywordsPrefix) {
        var keywords := Tokenize(LStrip(line, KeywordsChars), None);
        if title.Some? {
          ScanStopsAt(fmt, lines, ind);
          r := Success((title.value, keywords));
          return;
        }
      }
    }
    if title.Some? {
      r := Success((title.value, []));
    } else {
      r := Failure(FailedToExtractTitleAndKeywords);
    }
  }

  /** Reading line `ind` updates the title and decides whether the scan stops there. */
  lemma ScanStep(fmt: Format, lines: seq<string>, ind: nat)
    requires ind < |lines| && FirstHit(fmt, lines, ind) == None
    ensures TitleUpTo(fmt, lines, ind + 1)
         == if IsHeader(fmt, lines[ind]) then Some(TitleAt(fmt, lines, ind)) else TitleUpTo(fmt, lines, ind)
    ensures FirstHit(fmt, lines, ind + 1)
         == if IsKeywordsLine(lines[ind]) && TitleUpTo(fmt, lines, ind + 1).Some? then Some(ind) else None
  {
  }

  /** A scan that stops at line `ind` gives the title known then and that line's keywords. */
  lemma ScanStopsAt(fmt: Format, lines: seq<string>, ind: nat)
    requires ind < |lines| && FirstHit(fmt, lines, ind + 1) == Some(ind)
    ensures ScanOutcome(fmt, lines) == Success((TitleUpTo(fmt, lines, ind + 1).value, KeywordsOf(lines[ind])))
  {
    FirstHitStays(fmt, lines, ind + 1, |lines|);
  }

  /** `extract_title_and_keywords_from_rst` on the page's lines. */
  method ExtractFromRst(lines: seq<string>) returns (r: Result<(string, seq<string>), ExtractError>)
    ensures r == ScanOutcome(Rst, lines)
  {
    r := ScanLines(Rst, lines);
  }

  /** Scanning fails exactly when no line is a header. */
  lemma ScanFailsIffNoHeader(fmt: Format, lines: seq<string>)
    ensures ScanOutcome(fmt, lines).Failure? <==> forall k :: 0 <= k < |lines| ==> !IsHeader(fmt, lines[k])
    ensures ScanOutcome(fmt, lines).Failure? ==> ScanOutcome(fmt, lines).error == FailedToExtractTitleAndKeywords
  {
    LastHeaderIsLast(fmt, lines, |lines|);
    FirstHitIsFirst(fmt, lines, |lines|);
    if forall k :: 0 <= k < |lines| ==> !IsHeader(fmt, lines[k]) {
      forall k | 0 <= k < |lines| ensures !Hit(fmt, lines, k) {
        LastHeaderIsLast(fmt, lines, k + 1);
      }
    }
  }

  /** The keywords line that ends the scan gives its keywords, and the title of the last header above it. */
  lemma ScanHit(fmt: Format, lines: seq<string>, i: nat, j: nat)
    requires i < |lines| && j <= i
    requires IsKeywordsLine(lines[i]) && IsHeader(fmt, lines[j])
    requires forall k :: j < k <= i ==> !IsHeader(fmt, lines[k])
    requires forall k :: 0 <= k < i ==> !IsKeywordsLine(lines[k])
    ensures ScanOutcome(fmt, lines) == Success((TitleAt(fmt, lines, j), KeywordsOf(lines[i])))
  {
    LastHeaderFrom(fmt, lines, j, i + 1);
    assert Hit(fmt, lines, i);
    forall k | 0 <= k < i ensures !Hit(fmt, lines, k) {
    }
    FirstHitNone(fmt, lines, i);
    FirstHitStays(fmt, lines, i + 1, |lines|);
  }

  /** A header at `j` with none after it up to line `n` is the last header among the first `n`. */
  lemma {:induction false} LastHeaderFrom(fmt: Format, lines: seq<string>, j: nat, n: nat)
    requires j < n <= |lines| && IsHeader(fmt, lines[j])
    requires forall k :: j < k < n ==> !IsHeader(fmt, lines[k])
    ensures LastHeader(fmt, lines, n) == Some(j)
  {
    if n - 1 > j {
      LastHeaderFrom(fmt, lines, j, n - 1);
    }
  }

  /** Without any hit among the first `n` lines, `FirstHit` finds none. */
  lemma {:induction false} FirstHitNone(fmt: Format, lines: seq<string>, n: nat)
    requires n <= |lines|
    requires forall k :: 0 <= k < n ==> !Hit(fmt, lines, k)
    ensures FirstHit(fmt, lines, n) == None
  {
    if n > 0 {
      FirstHitNone(fmt, lines, n - 1);
    }
  }

  /** Without a keywords line after a header, the title of the last header comes with no keywords. */
  lemma ScanNoKeywords(fmt: Format, lines: seq<string>, j: nat)
    requires j < |lines| && IsHeader(fmt, lines[j])
    requires forall k :: j < k < |lines| ==> !IsHeader(fmt, lines[k])
    requires forall k :: 0 <= k < |lines| && IsKeywordsLine(lines[k]) ==> forall h :: 0 <= h <= k ==> !IsHeader(fmt, lines[h])
    ensures ScanOutcome(fmt, lines) == Success((TitleAt(fmt, lines, j), []))
  {
    forall k | 0 <= k < |lines|
      ensures !Hit(fmt, lines, k)
    {
      if IsKeywordsLine(lines[k]) {
        LastHeaderIsLast(fmt, lines, k + 1);
      }
    }
    FirstHitNone(fmt, lines, |lines|);
    LastHeaderFrom(fmt, lines, j, |lines|);
  }

  /** An underline on the first line takes `lines[-1]`, the page's last line, as the title. */
  lemma RstHeaderOnFirstLine(lines: seq<string>)
    requires |lines| >= 1 && IsHeader(Rst, lines[0])
    requires forall k :: 0 < k < |lines| ==> !IsHeader(Rst, lines[k]) && !IsKeywordsLine(lines[k])
    ensures ScanOutcome(Rst, lines) == Success((lines[|lines| - 1], []))
  {
    assert !IsKeywordsLine(lines[0]) by {
      assert lines[0][..40] == Header1Rst;
      assert lines[0][0] == lines[0][..40][0] == '=';
      assert Lower(lines[0])[0] == '=';
      assert KeywordsPrefix[0] == 'k';
    }
    ScanNoKeywords(Rst, lines, 0);
  }

  /**
   * `lstrip` removes a leading run of the characters of `"keywords: "`, not
   * the prefix: `"Keywords: word1, word2"` loses the `word` of `word1` too.
   */
  lemma KeywordsStripCharacters()
    ensures KeywordsOf("Keywords: word1, word2") == ["1", "word2"]
  {
    var line := "Keywords: word1, word2";
    assert Lower(line) == "keywords: word1, word2";
    LStripKeywords();
    TokensOfRest();
  }

  lemma LStripKeywords()
    ensures LStrip("keywords: word1, word2", KeywordsChars) == "1, word2"
  {
    var s := "keywords: word1, word2";
    var k := 14;
    assert s[k..] == "1, word2";
    LStripRun(s, KeywordsChars, k);
  }

  /** Stripping a leading run of `chars` that stops at a character outside `chars`. */
  lemma {:induction false} LStripRun(s: string, chars: set<char>, k: nat)
    requires k < |s| && s[k] !in chars
    requires forall i :: 0 <= i < k ==> s[i] in chars
    ensures LStrip(s, chars) == s[k..]
  {
    if k > 0 {
      assert s[1..][k - 1..] == s[k..];
      LStripRun(s[1..], chars, k - 1);
    }
  }

  lemma TokensOfRest()
    ensures Tokens("1, word2", DefaultDelimiters) == ["1", "word2"]
  {
    var seps := Whitespace + CharsOf(DefaultDelimiters);
    assert "1, word2" == "1" + [','] + [' '] + "word2";
    assert forall x :: x in "1" ==> x !in seps by {
      AlnumNotSeparator();
    }
    assert forall x :: x in "word2" ==> x !in seps by {
      AlnumNotSeparator();
      assert forall x :: x in "word2" ==> 'a' <= x <= 'z' || '0' <= x <= '9';
    }
    assert ',' in seps && ' ' in seps;
    TwoWords("1", ',', ' ', "word2", seps);
  }

  /** Lower-case letters and digits are never token separators. */
  lemma AlnumNotSeparator()
    ensures forall x :: 'a' <= x <= 'z' || '0' <= x <= '9' ==> x !in Whitespace + CharsOf(DefaultDelimiters)
  {
  }

  /** Two words with two separators between them are two tokens. */
  lemma TwoWords(a: string, c: char, d: char, b: string, seps: set<char>)
    requires a != "" && b != ""
    requires forall x :: x in a ==> x !in seps
    requires forall x :: x in b ==> x !in seps
    requires c in seps && d in seps
    ensures DropEmpty(SplitOn(a + [c] + [d] + b, seps)) == [a, b]
  {
    var t2 := [d] + b;
    var t1 := [c] + t2;
    assert a + [c] + [d] + b == a + t1;
    assert SplitOn(t2, seps) == ["", b] by {
      SplitOnWord(b, seps);
      SplitAtSeparator(d, b, seps);
    }
    assert SplitOn(t1, seps) == ["", "", b] by {
      SplitAtSeparator(c, t2, seps);
    }
    assert SplitOn(a + t1, seps) == [a, "", b] by {
      SplitOnSeparatorFree(a, t1, seps);
      assert a + "" == a;
    }
    DropEmptyTwo(a, b);
  }

  lemma DropEmptyTwo(a: string, b: string)
    requires a != "" && b != ""
    ensures DropEmpty([a, "", b]) == [a, b]
  {
    var pieces := [a, "", b];
    assert pieces[1..] == ["", b] && pieces[1..][1..] == [b] && [b][1..] == [];
    assert DropEmpty([b]) == [b];
    assert DropEmpty(["", b]) == [b];
  }

  /** A leading separator starts an empty piece. */
  lemma SplitAtSeparator(c: char, t: string, seps: set<char>)
    requires c in seps
    ensures SplitOn([c] + t, seps) == [""] + SplitOn(t, seps)
  {
    assert ([c] + t)[1..] == t;
  }

  /** A non-empty string without separators is one piece. */
  lemma SplitOnWord(w: string, seps: set<char>)
    requires forall c :: c in w ==> c !in seps
    ensures SplitOn(w, seps) == [w]
  {
    SplitOnSeparatorFree(w, "", seps);
    assert w + "" == w;
  }

  // ---------------------------------------------------------------------------
  // Notebooks

  /** A notebook cell: its `cell_type` and its `source` lines. */
  datatype Cell = Cell(cellType: string, source: seq<string>)

  predicate IsTitleCell(cell: Cell) {
    cell.cellType == "markdown" && |cell.source| > 0
  }

  /** The first markdown cell with a non-empty source among the first `n`. */
  function FirstTitleCell(cells: seq<Cell>, n: nat): (r: Option<nat>)
    requires n <= |cells|
    ensures r.Some? ==> r.value < n && IsTitleCell(cells[r.value])
  {
    if n == 0 then None
    else
      var p := FirstTitleCell(cells, n - 1);
      if p.Some? then p else if IsTitleCell(cells[n - 1]) then Some(n - 1) else None
  }

  /** `FirstTitleCell` finds the first such cell, and none only when there is none. */
  lemma {:induction false} FirstTitleCellIsFirst(cells: seq<Cell>, n: nat)
    requires n <= |cells|
    ensures var r := FirstTitleCell(cells, n);
      (r.Some? ==> forall k :: 0 <= k < r.value ==> !IsTitleCell(cells[k]))
      && (r.None? <==> forall k :: 0 <= k < n ==> !IsTitleCell(cells[k]))
  {
    if n > 0 {
      FirstTitleCellIsFirst(cells, n - 1);
    }
  }

  lemma {:induction false} FirstTitleCellStays(cells: seq<Cell>, m: nat, n: nat)
    requires m <= n <= |cells| && FirstTitleCell(cells, m).Some?
    ensures FirstTitleCell(cells, n) == FirstTitleCell(cells, m)
    decreases n
  {
    if m < n {
      FirstTitleCellStays(cells, m, n - 1);
    }
  }

  /** Cells appended after the first `n` do not change what the first `n` give. */
  lemma {:induction false} FirstTitleCellAppend(cells: seq<Cell>, more: seq<Cell>, n: nat)
    requires n <= |cells|
    ensures FirstTitleCell(cells + more, n) == FirstTitleCell(cells, n)
  {
    if n > 0 {
      FirstTitleCellAppend(cells, more, n - 1);
      assert (cells + more)[n - 1] == cells[n - 1];
    }
  }

  /**
   * What the notebook extractor gives: the scan of the first markdown cell
   * with a non-empty source, or `None` (the function falls off its end)
   * when there is no such cell.
   */
  function NotebookOutcome(cells: seq<Cell>): Result<Option<(string, seq<string>)>, ExtractError> {
    match FirstTitleCell(cells, |cells|)
    case None => Success(None)
    case Some(c) => Lift(ScanOutcome(Markdown, cells[c].source))
  }

  /** A title and keywords as a present value, errors passed on. */
  function Lift(r: Result<(string, seq<string>), ExtractError>): Result<Option<(string, seq<string>)>, ExtractError> {
    match r
    case Success(v) => Success(Some(v))
    case Failure(e) => Failure(e)
  }

  /** `extract_title_and_keywords_from_ipynb` on the notebook's cells. */
  method ExtractFromIpynb(cells: seq<Cell>) returns (r: Result<Option<(string, seq<string>)>, ExtractError>)
    ensures r == NotebookOutcome(cells)
  {
    for i := 0 to |cells|
      invariant FirstTitleCell(cells, i) == None
    {
      var cell := cells[i];
      if cell.cellType == "markdown" {
        if |cell.source| > 0 {
          CellStopsAt(cells, i);
          var scanned := ScanLines(Markdown, cell.source);
          r := Lift(scanned);
          return;
        }
      }
    }
    r := Success(None);
  }

  /** The first markdown cell with a source decides the outcome. */
  lemma CellStopsAt(cells: seq<Cell>, i: nat)
    requires i < |cells| && FirstTitleCell(cells, i) == None && IsTitleCell(cells[i])
    ensures NotebookOutcome(cells) == Lift(ScanOutcome(Markdown, cells[i].source))
  {
    assert FirstTitleCell(cells, i + 1) == Some(i);
    FirstTitleCellStays(cells, i + 1, |cells|);
  }

  /** The notebook extractor returns `None` exactly when no markdown cell has a source. */
  lemma NotebookNoneIff(cells: seq<Cell>)
    ensures NotebookOutcome(cells) == Success(None) <==> forall k :: 0 <= k < |cells| ==> !IsTitleCell(cells[k])
  {
    FirstTitleCellIsFirst(cells, |cells|);
  }

  /** Only the first markdown cell with a source is read: cells after it change nothing. */
  lemma NotebookFirstCellOnly(cells: seq<Cell>, more: seq<Cell>)
    requires FirstTitleCell(cells, |cells|).Some?
    ensures NotebookOutcome(cells + more) == NotebookOutcome(cells)
  {
    var c := FirstTitleCell(cells, |cells|).value;
    var all := cells + more;
    FirstTitleCellAppend(cells, more, |cells|);
    FirstTitleCellStays(all, |cells|, |all|);
    assert all[c] == cells[c];
  }

  // ---------------------------------------------------------------------------
  // Paths

  /** A path as its segments, from the root. */
  type Path = seq<string>

  /** A page found below the documentation root: its path and its contents, already read. */
  datatype IndexFile = IndexFile(path: Path, lines: seq<string>, cells: seq<Cell>)

  /** `Path.name`: the last segment. */
  function Name(p: Path): string {
    if p == [] then "" else p[|p| - 1]
  }

  /** `Path.parent` */
  function Parent(p: Path): Path {
    if p == [] then [] else p[..|p| - 1]
  }

  /** `str.rfind(c)`: the last index of `c`, or -1. */
  function RFind(s: string, c: char): (r: int)
    ensures -1 <= r < |s|
    ensures r >= 0 ==> s[r] == c
    ensures forall k :: r < k < |s| ==> s[k] != c
  {
    if s == [] then -1
    else if s[|s| - 1] == c then |s| - 1
    else RFind(s[..|s| - 1], c)
  }

  /** `PurePath.suffix` of a name: from its last dot, unless that dot is first or last. */
  function Suffix(name: string): (r: string)
    ensures r != "" ==> |r| >= 2 && r[0] == '.' && '.' !in r[1..] && |r| < |name| && name[|name| - |r|..] == r
  {
    var i := RFind(name, '.');
    if 0 < i < |name| - 1 then name[i..] else ""
  }

  /** `PurePath.stem` of a name. */
  function Stem(name: string): (r: string)
    ensures |r| <= |name| && name[..|r|] == r
    ensures name != "" ==> r != ""
  {
    var i := RFind(name, '.');
    if 0 < i < |name| - 1 then name[..i] else name
  }

  /** A name with one dot inside splits at that dot into stem and suffix. */
  lemma DottedName(base: string, ext: string)
    requires base != "" && ext != "" && '.' !in base && '.' !in ext
    ensures Stem(base + "." + ext) == base && Suffix(base + "." + ext) == "." + ext
  {
    var name := base + "." + ext;
    var i := RFind(name, '.');
    assert name[|base|] == '.';
    assert forall k :: |base| < k < |name| ==> name[k] == ext[k - |base| - 1];
    assert i == |base|;
    assert name[..i] == base && name[i..] == "." + ext;
  }

  /** A name is its stem followed by its suffix; a suffix is a dot followed by something without dots. */
  lemma StemSuffix(name: string)
    ensures Stem(name) + Suffix(name) == name
  {
    var i := RFind(name, '.');
    if 0 < i < |name| - 1 {
      assert name[..i] + name[i..] == name;
      forall c | c in name[i..][1..] ensures c != '.' {
        var k :| 0 <= k < |name[i..][1..]| && name[i..][1..][k] == c;
        assert name[i + 1 + k] == c;
      }
    }
  }

  // ---------------------------------------------------------------------------
  // Dispatch

  /** What `extract_title_and_keywords` gives for a page, by suffix. */
  function ExtractOutcome(f: IndexFile): Result<Option<(string, seq<string>)>, ExtractError> {
    var suffix := Suffix(Name(f.path));
    if suffix == ".rst" then Lift(ScanOutcome(Rst, f.lines))
    else if suffix == ".ipynb" then NotebookOutcome(f.cells)
    else Failure(UnknownIndexFileType)
  }

  /** `extract_title_and_keywords`: the rst extractor for ".rst", the notebook one for ".ipynb", else an error. */
  method ExtractTitleAndKeywords(f: IndexFile) returns (r: Result<Option<(string, seq<string>)>, ExtractError>)
    ensures r == ExtractOutcome(f)
  {
    var suffix := Suffix(Name(f.path));
    if suffix == ".rst" {
      var scanned := ExtractFromRst(f.lines);
      r := Lift(scanned);
    } else if suffix == ".ipynb" {
      r := ExtractFromIpynb(f.cells);
    } else {
      r := Failure(UnknownIndexFileType);
    }
  }

  /**
   * By suffix: an rst page gives its scan's title and keywords, never `None`,
   * or `FailedToExtractTitleAndKeywords`; a notebook gives what its first
   * titled cell gives; any other page gives `UnknownIndexFileType`.
   */
  lemma ExtractBySuffix(f: IndexFile)
    ensures Suffix(Name(f.path)) == ".rst" ==>
      (ExtractOutcome(f).Success? <==> ScanOutcome(Rst, f.lines).Success?)
      && (ExtractOutcome(f).Success? ==> ExtractOutcome(f).value == Some(ScanOutcome(Rst, f.lines).value))
      && (ExtractOutcome(f).Failure? ==> ExtractOutcome(f).error == FailedToExtractTitleAndKeywords)
    ensures Suffix(Name(f.path)) == ".ipynb" ==> ExtractOutcome(f) == NotebookOutcome(f.cells)
    ensures Suffix(Name(f.path)) !in {".rst", ".ipynb"} ==> ExtractOutcome(f) == Failure(UnknownIndexFileType)
  {
    ScanFailsIffNoHeader(Rst, f.lines);
  }

  // ---------------------------------------------------------------------------
  // URLs

  datatype UrlError = NotRelative

  /** `domain[:-1]` when `domain` ends with "/". */
  function TrimSlash(domain: string): (r: string)
    ensures |domain| > 0 && domain[|domain| - 1] == '/' ==> r + "/" == domain
    ensures (|domain| == 0 || domain[|domain| - 1] != '/') ==> r == domain
  {
    if |domain| > 0 && domain[|domain| - 1] == '/' then domain[..|domain| - 1] else domain
  }

  function IsPrefix(p: Path, q: Path): bool {
    |p| <= |q| && q[..|p|] == p
  }

  /** `str(PurePath)` of a relative path: its segments joined by "/", or "." when there are none. */
  function PathString(rel: Path): string {
    if rel == [] then "." else Join(rel, '/')
  }

  /**
   * `get_url`: the page's path with its suffix replaced by ".html", taken
   * relative to the documentation root (`ValueError` when it is not below
   * it), appended to the domain with one "/".
   */
  function GetUrl(domain: string, dirSource: Path, page: Path): (r: Result<string, UrlError>)
    ensures Below(dirSource, page) ==> r.Success?
    ensures r.Failure? ==> r.error == NotRelative
  {
    var html := Parent(page) + [Stem(Name(page)) + ".html"];
    if IsPrefix(dirSource, html) then Success(TrimSlash(domain) + "/" + PathString(html[|dirSource|..]))
    else Failure(NotRelative)
  }

  /** A page `rel/name` below the root gets the URL `domain/rel/stem.html`, with at most one trailing "/" of the domain dropped. */
  lemma GetUrlBelow(domain: string, dirSource: Path, rel: Path, name: string)
    ensures GetUrl(domain, dirSource, dirSource + rel + [name])
         == Success(TrimSlash(domain) + "/" + Join(rel + [Stem(name) + ".html"], '/'))
  {
    var page := dirSource + rel + [name];
    var html := Parent(page) + [Stem(Name(page)) + ".html"];
    assert Parent(page) == dirSource + rel;
    assert html == dirSource + (rel + [Stem(name) + ".html"]);
    assert html[..|dirSource|] == dirSource;
    assert html[|dirSource|..] == rel + [Stem(name) + ".html"];
  }

  /** A page whose ".html" path is not below the root has no URL. */
  lemma GetUrlOutside(domain: string, dirSource: Path, page: Path)
    requires !IsPrefix(dirSource, Parent(page) + [Stem(Name(page)) + ".html"])
    ensures GetUrl(domain, dirSource, page) == Failure(NotRelative)
  {
  }

  /**
   * The part of the URL after the domain splits back into the page's
   * directories below the root and its ".html" name.
   */
  lemma UrlSegments(domain: string, dirSource: Path, rel: Path, name: string)
    requires forall i :: 0 <= i < |rel| ==> '/' !in rel[i]
    requires '/' !in name
    ensures GetUrl(domain, dirSource, dirSource + rel + [name]).Success?
    ensures StartsWith(GetUrl(domain, dirSource, dirSource + rel + [name]).value, TrimSlash(domain) + "/")
    ensures SplitOn(GetUrl(domain, dirSource, dirSource + rel + [name]).value[|TrimSlash(domain)| + 1..], {'/'})
         == rel + [Stem(name) + ".html"]
  {
    var segs := rel + [Stem(name) + ".html"];
    GetUrlBelow(domain, dirSource, rel, name);
    assert forall i :: 0 <= i < |segs| ==> '/' !in segs[i] by {
      HtmlNameHasNoSlash(name);
      forall i | 0 <= i < |segs|
        ensures '/' !in segs[i]
      {
        if i < |rel| {
          assert segs[i] == rel[i];
        } else {
          assert segs[i] == Stem(name) + ".html";
        }
      }
    }
    SplitAfterHead(TrimSlash(domain) + "/", segs);
  }

  lemma HtmlNameHasNoSlash(name: string)
    requires '/' !in name
    ensures '/' !in Stem(name) + ".html"
  {
    StemSuffix(name);
    assert forall c :: c in Stem(name) ==> c in name;
  }

  /** The text after a fixed head splits back into the joined pieces. */
  lemma SplitAfterHead(head: string, segs: seq<string>)
    requires |segs| >= 1
    requires forall i :: 0 <= i < |segs| ==> '/' !in segs[i]
    ensures StartsWith(head + Join(segs, '/'), head)
    ensures SplitOn((head + Join(segs, '/'))[|head|..], {'/'}) == segs
  {
    SplitJoin(segs, '/');
    assert (head + Join(segs, '/'))[..|head|] == head;
    assert (head + Join(segs, '/'))[|head|..] == Join(segs, '/');
  }

  /** The example of `get_url`'s docstring. */
  lemma GetUrlExample(domain: string, dirSource: Path, page: Path)
    requires domain == "https://my_dataset.readthedocs.io/"
    requires dirSource == ["Path", "to", "source"]
    requires page == ["Path", "to", "source", "chapter1", "section1", "index.rst"]
    ensures GetUrl(domain, dirSource, page) == Success("https://my_dataset.readthedocs.io" + "/" + "chapter1/section1/index.html")
  {
    assert page == dirSource + ["chapter1", "section1"] + ["index.rst"];
    ExampleHost();
    ExampleTail();
    GetUrlBelow(domain, dirSource, ["chapter1", "section1"], "index.rst");
  }

  lemma ExampleHost()
    ensures TrimSlash("https://my_dataset.readthedocs.io/") == "https://my_dataset.readthedocs.io"
  {
    var domain := "https://my_dataset.readthedocs.io/";
    assert |domain| == 34 && domain[33] == '/';
    assert domain[..33] == "https://my_dataset.readthedocs.io";
  }

  lemma ExampleTail()
    ensures Join(["chapter1", "section1"] + [Stem("index.rst") + ".html"], '/') == "chapter1/section1/index.html"
  {
    assert Stem("index.rst") == "index" by {
      assert "index.rst" == "index" + "." + "rst";
      DottedName("index", "rst");
    }
    assert "index" + ".html" == "index.html";
    ExampleSegments();
  }

  lemma ExampleSegments()
    ensures Join(["chapter1", "section1"] + ["index.html"], '/') == "chapter1/section1/index.html"
  {
    assert ["chapter1", "section1"] + ["index.html"] == ["chapter1", "section1", "index.html"];
    JoinThree("chapter1", "section1", "index.html", '/');
  }

  // ---------------------------------------------------------------------------
  // Rows

  /** One row of the dataset. */
  datatype Row = Row(title: string, search: string, url: string)

  /** `" ".join([title, " ".join(keywords)])`: a page without keywords searches as its title and a space. */
  function Search(title: string, keywords: seq<string>): (r: string)
    ensures StartsWith(r, title + " ")
    ensures keywords == [] ==> r == title + " "
  {
    title + " " + Join(keywords, ' ')
  }

  /** The words of the search text are the title's words followed by the keywords, when those are words themselves. */
  lemma SearchWords(title: string, keywords: seq<string>)
    requires forall i :: 0 <= i < |keywords| ==> keywords[i] != "" && forall c :: c in keywords[i] ==> c !in Whitespace
    ensures Words(Search(title, keywords)) == Words(title) + keywords
  {
    WordsJoin(keywords);
    WordsAround(title, Join(keywords, ' '));
  }

  /** Tokens always are such words, so the search text of any tokenized keywords splits back into them. */
  lemma SearchTokens(title: string, s: string, ds: seq<char>)
    ensures Words(Search(title, Tokens(s, ds))) == Words(title) + Tokens(s, ds)
  {
    TokensSpec(s, ds);
    SearchWords(title, Tokens(s, ds));
  }

  /** `path` is strictly below `dir`, as a recursive glob of `dir` yields it. */
  predicate Below(dir: Path, path: Path) {
    |dir| < |path| && path[..|dir|] == dir
  }

  predicate IsIndexSuffix(f: IndexFile) {
    Suffix(Name(f.path)) in {".rst", ".ipynb"}
  }

  /**
   * The row a page contributes: none when its suffix is skipped or its
   * extraction fails (a page below the root always has a URL, see `UrlBelow`).
   */
  function RowOf(domain: string, dirSource: Path, f: IndexFile): (r: Option<Row>)
    ensures r.Some? ==> IsIndexSuffix(f) && ExtractOutcome(f).Success? && ExtractOutcome(f).value.Some?
    ensures r.Some? ==>
      r.value.title == ExtractOutcome(f).value.value.0
      && r.value.search == Search(r.value.title, ExtractOutcome(f).value.value.1)
      && Success(r.value.url) == GetUrl(domain, dirSource, f.path)
  {
    if !IsIndexSuffix(f) then None
    else
      match ExtractOutcome(f)
      case Success(Some((title, keywords))) =>
        (match GetUrl(domain, dirSource, f.path)
         case Success(url) => Some(Row(title, Search(title, keywords), url))
         case Failure(_) => None)
      case _ => None
  }

  /** Every page below the root has a URL. */
  lemma UrlBelow(domain: string, dirSource: Path, page: Path)
    requires Below(dirSource, page)
    ensures GetUrl(domain, dirSource, page).Success?
  {
    var rel := page[|dirSource|..|page| - 1];
    assert page == dirSource + rel + [Name(page)];
    GetUrlBelow(domain, dirSource, rel, Name(page));
  }

  /** A page below the root gives a row exactly when it has an index suffix and its extraction gives a title. */
  lemma RowOfBelow(domain: string, dirSource: Path, f: IndexFile)
    requires Below(dirSource, f.path)
    ensures RowOf(domain, dirSource, f).Some? <==> IsIndexSuffix(f) && ExtractOutcome(f).Success? && ExtractOutcome(f).value.Some?
  {
    UrlBelow(domain, dirSource, f.path);
  }

  predicate AllBelow(dirSource: Path, files: seq<IndexFile>) {
    forall i :: 0 <= i < |files| ==> Below(dirSource, files[i].path)
  }

  function RowsOfOne(r: Option<Row>): seq<Row> {
    match r
    case Some(row) => [row]
    case None => []
  }

  /** The rows for `files`, in order, one per page that yields one. */
  function RowsOf(domain: string, dirSource: Path, files: seq<IndexFile>): seq<Row> {
    if files == [] then []
    else RowsOf(domain, dirSource, files[..|files| - 1]) + RowsOfOne(RowOf(domain, dirSource, files[|files| - 1]))
  }

  /** Rows of two runs of pages are the rows of the first run, then those of the second. */
  lemma {:induction false} RowsOfAppend(domain: string, dirSource: Path, a: seq<IndexFile>, b: seq<IndexFile>)
    ensures RowsOf(domain, dirSource, a + b) == RowsOf(domain, dirSource, a) + RowsOf(domain, dirSource, b)
    decreases |b|
  {
    if b == [] {
      assert a + b == a;
    } else {
      SnocSlices(a, b);
      RowsOfUnfold(domain, dirSource, a + b);
      RowsOfUnfold(domain, dirSource, b);
      RowsOfAppend(domain, dirSource, a, b[..|b| - 1]);
      ConcatAssoc(RowsOf(domain, dirSource, a), RowsOf(domain, dirSource, b[..|b| - 1]), RowsOfOne(RowOf(domain, dirSource, b[|b| - 1])));
    }
  }

  lemma ConcatAssoc<T>(x: seq<T>, y: seq<T>, z: seq<T>)
    ensures (x + y) + z == x + (y + z)
  {
  }

  lemma SnocSlices<T>(a: seq<T>, b: seq<T>)
    requires b != []
    ensures (a + b)[..|a + b| - 1] == a + b[..|b| - 1] && (a + b)[|a + b| - 1] == b[|b| - 1]
  {
  }

  /** Every row comes from a page whose extraction succeeded. */
  lemma {:induction false} RowsSound(domain: string, dirSource: Path, files: seq<IndexFile>, k: nat)
    requires k < |RowsOf(domain, dirSource, files)|
    ensures exists i :: 0 <= i < |files| && RowOf(domain, dirSource, files[i]) == Some(RowsOf(domain, dirSource, files)[k])
  {
    var init := files[..|files| - 1];
    var rows := RowsOf(domain, dirSource, init);
    if k < |rows| {
      RowsSound(domain, dirSource, init, k);
      var i :| 0 <= i < |init| && RowOf(domain, dirSource, init[i]) == Some(rows[k]);
      assert files[i] == init[i];
    } else {
      assert RowOf(domain, dirSource, files[|files| - 1]) == Some(RowsOf(domain, dirSource, files)[k]);
    }
  }

  /** Every page that yields a row has it in the dataset. */
  lemma {:induction false} RowsComplete(domain: string, dirSource: Path, files: seq<IndexFile>, i: nat)
    requires i < |files| && RowOf(domain, dirSource, files[i]).Some?
    ensures RowOf(domain, dirSource, files[i]).value in RowsOf(domain, dirSource, files)
    decreases |files|
  {
    var init, tail := files[..|files| - 1], RowsOfOne(RowOf(domain, dirSource, files[|files| - 1]));
    var row := RowOf(domain, dirSource, files[i]).value;
    RowsOfUnfold(domain, dirSource, files);
    if i < |init| {
      assert init[i] == files[i];
      RowsComplete(domain, dirSource, init, i);
      InConcat(row, RowsOf(domain, dirSource, init), tail);
    } else {
      assert i == |files| - 1;
      RowsOfOneSome(RowOf(domain, dirSource, files[i]));
      InConcat(row, RowsOf(domain, dirSource, init), tail);
    }
  }

  lemma RowsOfUnfold(domain: string, dirSource: Path, files: seq<IndexFile>)
    requires files != []
    ensures RowsOf(domain, dirSource, files)
      == RowsOf(domain, dirSource, files[..|files| - 1]) + RowsOfOne(RowOf(domain, dirSource, files[|files| - 1]))
  {
  }

  lemma RowsOfOneSome(r: Option<Row>)
    requires r.Some?
    ensures RowsOfOne(r) == [r.value]
  {
  }

  lemma InConcat<T>(x: T, a: seq<T>, b: seq<T>)
    ensures x in a + b <==> x in a || x in b
  {
  }

  /** Why the as-written build stops: `title, keywords = None` raises `TypeError`, which nothing catches. */
  datatype BuildError = TypeError

  /** A notebook page for which the extractor falls through and returns `None`. */
  predicate Aborts(f: IndexFile) {
    IsIndexSuffix(f) && ExtractOutcome(f) == Success(None)
  }

  /** Only a notebook can abort the build: one without a markdown cell that has a source. */
  lemma AbortsIsNotebook(f: IndexFile)
    ensures Aborts(f) <==> Suffix(Name(f.path)) == ".ipynb" && forall k :: 0 <= k < |f.cells| ==> !IsTitleCell(f.cells[k])
  {
    NotebookNoneIff(f.cells);
  }

  lemma RowsOfSnoc(domain: string, dirSource: Path, files: seq<IndexFile>, i: nat)
    requires i < |files|
    ensures RowsOf(domain, dirSource, files[..i + 1]) == RowsOf(domain, dirSource, files[..i]) + RowsOfOne(RowOf(domain, dirSource, files[i]))
  {
    assert files[..i + 1][..i] == files[..i] && files[..i + 1][i] == files[i];
  }

  /** What one page does to the loop: abort, a row, or nothing. */
  lemma RowStep(domain: string, dirSource: Path, f: IndexFile)
    requires Below(dirSource, f.path)
    ensures GetUrl(domain, dirSource, f.path).Success?
    ensures IsIndexSuffix(f) && ExtractOutcome(f).Success? && ExtractOutcome(f).value.Some? ==>
      var (title, keywords) := ExtractOutcome(f).value.value;
      RowOf(domain, dirSource, f) == Some(Row(title, Search(title, keywords), GetUrl(domain, dirSource, f.path).value))
    ensures !(IsIndexSuffix(f) && ExtractOutcome(f).Success? && ExtractOutcome(f).value.Some?) ==>
      RowOf(domain, dirSource, f) == None
  {
    UrlBelow(domain, dirSource, f.path);
  }

  /** Which pages abort the as-written build, page by page. */
  function AbortFlags(files: seq<IndexFile>): (r: seq<bool>)
    ensures |r| == |files|
    ensures forall i :: 0 <= i < |files| ==> r[i] == Aborts(files[i])
  {
    seq(|files|, i requires 0 <= i < |files| => Aborts(files[i]))
  }

  /** The first position among the first `n` whose flag is set. */
  function FirstTrue(bs: seq<bool>, n: nat): (r: Option<nat>)
    requires n <= |bs|
    ensures r.Some? ==> r.value < n && bs[r.value]
  {
    if n == 0 then None
    else
      var p := FirstTrue(bs, n - 1);
      if p.Some? then p else if bs[n - 1] then Some(n - 1) else None
  }

  /** `FirstTrue` finds nothing exactly when no flag among the first `n` is set. */
  lemma {:induction false} FirstTrueNone(bs: seq<bool>, n: nat)
    requires n <= |bs|
    ensures FirstTrue(bs, n) == None <==> forall j :: 0 <= j < n ==> !bs[j]
  {
    if n > 0 {
      FirstTrueNone(bs, n - 1);
    }
  }

  /** Once found, the first set flag stays the answer for longer prefixes. */
  lemma {:induction false} FirstTrueStays(bs: seq<bool>, m: nat, n: nat)
    requires m <= n <= |bs| && FirstTrue(bs, m).Some?
    ensures FirstTrue(bs, n) == FirstTrue(bs, m)
    decreases n
  {
    if m < n {
      FirstTrueStays(bs, m, n - 1);
    }
  }

  /**
   * What the as-written loop gives: `TypeError` when some page aborts it,
   * otherwise the rows.
   */
  function AsWrittenOutcome(domain: string, dirSource: Path, files: seq<IndexFile>): Result<seq<Row>, BuildError> {
    if FirstTrue(AbortFlags(files), |files|).Some? then Failure(TypeError) else Success(RowsOf(domain, dirSource, files))
  }

  /**
   * The as-written build fails exactly when some page is a notebook whose
   * extractor returns `None`, and otherwise gives the same rows as the
   * intended build.
   */
  lemma AsWrittenAbortsIff(domain: string, dirSource: Path, files: seq<IndexFile>)
    ensures AsWrittenOutcome(domain, dirSource, files).Failure? <==> exists i :: 0 <= i < |files| && Aborts(files[i])
    ensures AsWrittenOutcome(domain, dirSource, files).Success? ==>
      AsWrittenOutcome(domain, dirSource, files).value == RowsOf(domain, dirSource, files)
  {
    FirstTrueNone(AbortFlags(files), |files|);
  }

  /**
   * The row loop of `build_fts_anything_dataset` as written: pages with
   * another suffix are skipped, the two extraction errors are caught and
   * skipped, and the first notebook without a markdown cell aborts the whole
   * build.
   */
  method BuildDatasetAsWritten(domain: string, dirSource: Path, files: seq<IndexFile>)
    returns (r: Result<seq<Row>, BuildError>)
    requires AllBelow(dirSource, files)
    ensures r == AsWrittenOutcome(domain, dirSource, files)
  {
    var data: seq<Row> := [];
    for i := 0 to |files|
      invariant data == RowsOf(domain, dirSource, files[..i])
      invariant FirstTrue(AbortFlags(files), i) == None
    {
      var f := files[i];
      RowsOfSnoc(domain, dirSource, files, i);
      RowStep(domain, dirSource, f);
      AbortStep(domain, dirSource, files, i);
      var suffix := Suffix(Name(f.path));
      if suffix != ".rst" && suffix != ".ipynb" {
        continue;
      }
      var extracted := ExtractTitleAndKeywords(f);
      match extracted {
        case Failure(_) =>
        case Success(None) =>
          r := Failure(TypeError);
          return;
        case Success(Some((title, keywords))) =>
          var url := GetUrl(domain, dirSource, f.path).value;
          data := data + [Row(title, Search(title, keywords), url)];
      }
    }
    assert files[..|files|] == files;
    r := Success(data);
  }

  /** Page `i` either aborts the as-written build or leaves it running. */
  lemma AbortStep(domain: string, dirSource: Path, files: seq<IndexFile>, i: nat)
    requires i < |files| && FirstTrue(AbortFlags(files), i) == None
    ensures Aborts(files[i]) ==> AsWrittenOutcome(domain, dirSource, files) == Failure(TypeError)
    ensures !Aborts(files[i]) ==> FirstTrue(AbortFlags(files), i + 1) == None
  {
    if Aborts(files[i]) {
      FirstTrueStays(AbortFlags(files), i + 1, |files|);
    }
  }

  /**
   * The row loop as evidently intended: a notebook whose extractor finds no
   * markdown cell is skipped like any page without a title.
   */
  method BuildDataset(domain: string, dirSource: Path, files: seq<IndexFile>) returns (rows: seq<Row>)
    requires AllBelow(dirSource, files)
    ensures rows == RowsOf(domain, dirSource, files)
    ensures forall k :: 0 <= k < |rows| ==> exists i :: 0 <= i < |files| && RowOf(domain, dirSource, files[i]) == Some(rows[k])
    ensures forall i :: 0 <= i < |files| && RowOf(domain, dirSource, files[i]).Some? ==> RowOf(domain, dirSource, files[i]).value in rows
  {
    rows := [];
    for i := 0 to |files|
      invariant rows == RowsOf(domain, dirSource, files[..i])
    {
      var f := files[i];
      RowsOfSnoc(domain, dirSource, files, i);
      RowStep(domain, dirSource, f);
      var suffix := Suffix(Name(f.path));
      if suffix != ".rst" && suffix != ".ipynb" {
        continue;
      }
      var extracted := ExtractTitleAndKeywords(f);
      match extracted {
        case Failure(_) =>
        case Success(None) =>
        case Success(Some((title, keywords))) =>
          var url := GetUrl(domain, dirSource, f.path).value;
          rows := rows + [Row(title, Search(title, keywords), url)];
      }
    }
    assert files[..|files|] == files;
    forall k | 0 <= k < |rows|
      ensures exists i :: 0 <= i < |files| && RowOf(domain, dirSource, files[i]) == Some(rows[k])
    {
      RowsSound(domain, dirSource, files, k);
    }
    forall i | 0 <= i < |files| && RowOf(domain, dirSource, files[i]).Some?
      ensures RowOf(domain, dirSource, files[i]).value in rows
    {
      RowsComplete(domain, dirSource, files, i);
    }
  }

  /**
   * A notebook with no cells makes the as-written build abort, where the
   * intended build gives an empty dataset.
   */
  lemma EmptyNotebookAborts(domain: string, dirSource: Path, f: IndexFile)
    requires f.path == dirSource + ["index.ipynb"] && f.cells == []
    ensures Aborts(f)
    ensures AsWrittenOutcome(domain, dirSource, [f]).Failure?
    ensures RowsOf(domain, dirSource, [f]) == []
  {
    assert Name(f.path) == "index.ipynb";
    assert Suffix("index.ipynb") == ".ipynb" by {
      DottedName("index", "ipynb");
      assert "index" + "." + "ipynb" == "index.ipynb";
    }
    assert [f][..0] == [];
    AsWrittenAbortsIff(domain, dirSource, [f]);
  }
}
