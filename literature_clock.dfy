/** The literature-clock card: pick the quote for the current minute from the
    annotated quote table, clean its text, size it, mark the spoken time with
    pipes and colour the wrapped lines so that the time is drawn in red. */
module LiteratureClock {
  import opened Options
  import opened TextOps
  import opened Arith

  /** One line of the quote table, fields in file order. */
  datatype Row = Row(time: string, timeHuman: string, fullQuote: string,
                     bookTitle: string, authorName: string, sfw: string)

  // ---------------------------------------------------------------------
  // The current time as the table writes it

  function TwoDigits(n: int): (s: string)
    requires 0 <= n < 100
    ensures |s| == 2 && IsDigit(s[0]) && IsDigit(s[1])
    ensures DigitValue(s[0]) * 10 + DigitValue(s[1]) == n
  {
    [DigitChar(n / 10), DigitChar(n % 10)]
  }

  /** `strftime("%H:%M")`: two-digit hour, colon, two-digit minute. */
  function FormatHHMM(hour: int, minute: int): (s: string)
    requires 0 <= hour < 24 && 0 <= minute < 60
    ensures |s| == 5 && s[2] == ':'
    ensures IsDigit(s[0]) && IsDigit(s[1]) && IsDigit(s[3]) && IsDigit(s[4])
    ensures DigitValue(s[0]) * 10 + DigitValue(s[1]) == hour
    ensures DigitValue(s[3]) * 10 + DigitValue(s[4]) == minute
  {
    TwoDigits(hour) + ":" + TwoDigits(minute)
  }

  /** Distinct times give distinct keys, so a row matches one minute of the day. */
  lemma FormatHHMMInjective(h1: int, m1: int, h2: int, m2: int)
    requires 0 <= h1 < 24 && 0 <= m1 < 60 && 0 <= h2 < 24 && 0 <= m2 < 60
    ensures FormatHHMM(h1, m1) == FormatHHMM(h2, m2) ==> h1 == h2 && m1 == m2
  {
    var s1, s2 := FormatHHMM(h1, m1), FormatHHMM(h2, m2);
    if s1 == s2 {
      assert s1[..2] == TwoDigits(h1) && s2[..2] == TwoDigits(h2);
      assert s1[3..] == TwoDigits(m1) && s2[3..] == TwoDigits(m2);
    }
  }

  // ---------------------------------------------------------------------
  // Row filtering and the choice of quote

  /** The rows whose time column equals `time`, in file order. */
  function MatchingRows(rows: seq<Row>, time: string): (r: seq<Row>)
    ensures |r| <= |rows|
    ensures forall x :: x in r ==> x in rows && x.time == time
  {
    if rows == [] then []
    else
      var last := rows[|rows| - 1];
      MatchingRows(rows[..|rows| - 1], time) + (if last.time == time then [last] else [])
  }

  /** A row is kept as often as it appears when its time matches, never otherwise. */
  lemma {:induction false} MatchingRowsCount(rows: seq<Row>, time: string, x: Row)
    ensures multiset(MatchingRows(rows, time))[x] == if x.time == time then multiset(rows)[x] else 0
  {
    if rows != [] {
      var init, last := rows[..|rows| - 1], rows[|rows| - 1];
      assert rows == init + [last];
      MatchingRowsCount(init, time, x);
    }
  }

  /** Filtering commutes with concatenation: the file order is kept. */
  lemma {:induction false} MatchingRowsAppend(a: seq<Row>, b: seq<Row>, time: string)
    ensures MatchingRows(a + b, time) == MatchingRows(a, time) + MatchingRows(b, time)
  {
    if b == [] {
      assert a + b == a;
    } else {
      var init, last := b[..|b| - 1], b[|b| - 1];
      assert (a + b)[..|a + b| - 1] == a + init;
      MatchingRowsAppend(a, init, time);
    }
  }

  /** The loop that collects the rows of the current minute. */
  method FilterRows(rows: seq<Row>, currentTime: string) returns (timeRows: seq<Row>)
    ensures timeRows == MatchingRows(rows, currentTime)
  {
    timeRows := [];
    for i := 0 to |rows|
      invariant timeRows == MatchingRows(rows[..i], currentTime)
    {
      assert rows[..i + 1][..i] == rows[..i];
      if rows[i].time == currentTime {
        timeRows := timeRows + [rows[i]];
      }
    }
    assert rows[..|rows|] == rows;
  }

  /** `min(rows, key=len(full_quote))`: the first row of minimal quote length. */
  function ShortestIndex(rows: seq<Row>): (k: nat)
    requires |rows| > 0
    ensures k < |rows|
    ensures forall j :: 0 <= j < |rows| ==> |rows[k].fullQuote| <= |rows[j].fullQuote|
    ensures forall j :: 0 <= j < k ==> |rows[j].fullQuote| > |rows[k].fullQuote|
  {
    if |rows| == 1 then 0
    else
      var k' := ShortestIndex(rows[1..]) + 1;
      if |rows[k'].fullQuote| < |rows[0].fullQuote| then k' else 0
  }

  // ---------------------------------------------------------------------
  // Text clean-up

  const NoBreakSpace := '\U{A0}'

  /** Line breaks and non-breaking spaces become plain spaces. */
  function ReplaceBreaks(quote: string): (r: string)
    ensures !Occurs(r, "<br/>") && !Occurs(r, "<br>") && NoBreakSpace !in r
  {
    var q1 := ReplaceAll(quote, "<br/>", " ");
    var q2 := ReplaceAll(q1, "<br />", " ");
    var q3 := ReplaceAll(q2, "<br>", " ");
    var q4 := ReplaceAll(q3, [NoBreakSpace], " ");
    ReplaceAllRemoves(quote, "<br/>", " ");
    ReplaceAllKeepsAbsent(q1, "<br />", " ", "<br/>");
    ReplaceAllKeepsAbsent(q2, "<br>", " ", "<br/>");
    ReplaceAllKeepsAbsent(q3, [NoBreakSpace], " ", "<br/>");
    ReplaceAllRemoves(q2, "<br>", " ");
    ReplaceAllKeepsAbsent(q3, [NoBreakSpace], " ", "<br>");
    ReplaceCharGone(q3, NoBreakSpace, " ");
    q4
  }

  /** Removing the "<br />" inside "<br<br />/>" joins the text around it into
      a new one, as Python's `replace` does too. */
  lemma BreakReforms()
    ensures ReplaceAll("<br<br />/>", "<br />", " ") == "<br />"
  {
    var s := "<br<br />/>";
    assert ReplaceAll(s[9..], "<br />", " ") == "/>";
    assert s[3..][..6] == "<br />" && s[3..][6..] == s[9..];
    assert ReplaceAll(s[3..], "<br />", " ") == " />";
    assert s[2..][..6][0] != "<br />"[0];
    assert ReplaceAll(s[2..], "<br />", " ") == "r />";
    assert s[1..][..6][0] != "<br />"[0];
    assert ReplaceAll(s[1..], "<br />", " ") == "br />";
    assert s[..6][3] != "<br />"[3];
  }

  /** The tail " />/>" is left as it is by the first step. */
  lemma LateStartsKeep()
    ensures ReplaceAll("<br<br />/>"[4..], "<br/>", " ") == "<br<br />/>"[4..]
  {
    var s := "<br<br />/>";
    assert s[6..][..5][0] != "<br/>"[0];
    assert ReplaceAll(s[6..], "<br/>", " ") == s[6..];
    assert s[5..][..5][0] != "<br/>"[0];
    assert ReplaceAll(s[5..], "<br/>", " ") == s[5..];
    assert s[4..][..5][0] != "<br/>"[0];
  }

  /** The first step of the clean-up leaves "<br<br />/>" as it is. */
  lemma FirstStepKeeps()
    ensures ReplaceAll("<br<br />/>", "<br/>", " ") == "<br<br />/>"
  {
    var s := "<br<br />/>";
    LateStartsKeep();
    assert s[3..][..5][3] != "<br/>"[3];
    assert ReplaceAll(s[3..], "<br/>", " ") == s[3..];
    assert s[2..][..5][0] != "<br/>"[0];
    assert ReplaceAll(s[2..], "<br/>", " ") == s[2..];
    assert s[1..][..5][0] != "<br/>"[0];
    assert ReplaceAll(s[1..], "<br/>", " ") == s[1..];
    assert s[..5][3] != "<br/>"[3];
  }

  /** The later steps of the clean-up leave "<br />" as it is. */
  lemma LaterStepsKeepBreak()
    ensures ReplaceAll("<br />", "<br>", " ") == "<br />"
    ensures ReplaceAll("<br />", [NoBreakSpace], " ") == "<br />"
  {
    var t := "<br />";
    assert ReplaceAll(t[3..], "<br>", " ") == t[3..];
    assert t[2..][..4][0] != "<br>"[0];
    assert ReplaceAll(t[2..], "<br>", " ") == t[2..];
    assert t[1..][..4][0] != "<br>"[0];
    assert ReplaceAll(t[1..], "<br>", " ") == t[1..];
    assert t[..4][3] != "<br>"[3];
    assert ReplaceAll(t[5..], [NoBreakSpace], " ") == t[5..];
    assert ReplaceAll(t[4..], [NoBreakSpace], " ") == t[4..];
    assert ReplaceAll(t[3..], [NoBreakSpace], " ") == t[3..];
    assert ReplaceAll(t[2..], [NoBreakSpace], " ") == t[2..];
    assert ReplaceAll(t[1..], [NoBreakSpace], " ") == t[1..];
  }

  /** "<br />" is not among the promises of `ReplaceBreaks`: the clean-up can
      leave one behind. */
  lemma BreakCanReform()
    ensures ReplaceBreaks("<br<br />/>") == "<br />"
    ensures Occurs(ReplaceBreaks("<br<br />/>"), "<br />")
  {
    FirstStepKeeps();
    BreakReforms();
    LaterStepsKeepBreak();
    assert OccursAt("<br />", "<br />", 0);
  }

  /** The punctuation table: curly and acute quotes to straight ones, dashes to '-'. */
  const Translation: map<char, char> := map[
    '\U{2018}' := '\'', '\U{2019}' := '\'', '\U{B4}' := '\'',
    '\U{201C}' := '"', '\U{201D}' := '"',
    '\U{2014}' := '-', '\U{2013}' := '-', '-' := '-'
  ]

  function TranslateChar(c: char): (r: char)
    ensures c in Translation ==> IsAscii(r)
    ensures c !in Translation ==> r == c
  {
    if c in Translation then Translation[c] else c
  }

  /** `str.translate` with the punctuation table: one character for one. */
  function Translate(s: string): (r: string)
    ensures |r| == |s|
    ensures forall i :: 0 <= i < |s| ==> r[i] == TranslateChar(s[i])
  {
    seq(|s|, i requires 0 <= i < |s| => TranslateChar(s[i]))
  }

  predicate IsAscii(c: char)
  {
    c as int < 128
  }

  /** `encode('ascii', 'ignore')`: every non-ASCII character is dropped. */
  function AsciiOnly(s: string): (r: string)
    ensures forall i :: 0 <= i < |r| ==> IsAscii(r[i])
    ensures forall c :: c in r ==> c in s
    ensures (forall i :: 0 <= i < |s| ==> IsAscii(s[i])) ==> r == s
  {
    if s == [] then ""
    else (if IsAscii(s[0]) then [s[0]] else []) + AsciiOnly(s[1..])
  }

  /** One character is kept exactly when it is ASCII. */
  lemma AsciiOnlyChar(c: char)
    ensures AsciiOnly([c]) == if IsAscii(c) then [c] else []
  {
    assert [c][1..] == [];
  }

  /** The filter works piece by piece, so the ASCII characters of a mixed
      text are all kept, in their order. */
  lemma {:induction false} AsciiOnlyAppend(a: string, b: string)
    ensures AsciiOnly(a + b) == AsciiOnly(a) + AsciiOnly(b)
  {
    if a == [] {
      assert a + b == b;
    } else {
      assert (a + b)[0] == a[0] && (a + b)[1..] == a[1..] + b;
      AsciiOnlyAppend(a[1..], b);
    }
  }

  /** Each table character comes out as its plain counterpart, which the
      ASCII filter then keeps. */
  lemma PunctuationMapped()
    ensures AsciiOnly(Translate(['\U{2018}'])) == "'" && AsciiOnly(Translate(['\U{2019}'])) == "'"
    ensures AsciiOnly(Translate(['\U{B4}'])) == "'"
    ensures AsciiOnly(Translate(['\U{201C}'])) == "\"" && AsciiOnly(Translate(['\U{201D}'])) == "\""
    ensures AsciiOnly(Translate(['\U{2014}'])) == "-" && AsciiOnly(Translate(['\U{2013}'])) == "-"
  {
  }

  /** The quote text after all clean-up steps. */
  function CleanQuote(quote: string): (r: string)
    ensures forall i :: 0 <= i < |r| ==> IsAscii(r[i])
  {
    AsciiOnly(Translate(ReplaceBreaks(quote)))
  }

  /** The spoken time after clean-up (it has no line breaks to replace). */
  function CleanTime(humanTime: string): (r: string)
    ensures forall i :: 0 <= i < |r| ==> IsAscii(r[i])
  {
    AsciiOnly(Translate(humanTime))
  }

  // ---------------------------------------------------------------------
  // Size formulas, computed with real numbers as the script does

  function Ceil(x: real): int
  {
    -((-x).Floor)
  }

  /** `font_size` for a quote of the given length. */
  function FontSize(quoteLength: nat): int
  {
    var goesInto: real := if quoteLength > 80 then quoteLength as real / 100.0 else 0.0;
    var fontSize := 60.0 - goesInto * 8.0;
    var clamped := if fontSize < 25.0 then 25.0 else fontSize;
    Ceil(clamped)
  }

  /** `max_chars_per_line` for a quote of the given length. */
  function MaxCharsPerLine(quoteLength: nat): int
  {
    var goesInto: real := if quoteLength > 80 then quoteLength as real / 100.0 else 0.0;
    var width := 23.0 + goesInto * 6.0;
    var clamped := if width > 55.0 then 55.0 else width;
    clamped.Floor
  }

  /** Real division rounded down agrees with integer division. */
  lemma FloorOfQuotient(a: nat, b: nat)
    requires b > 0
    ensures (a as real / b as real).Floor == a / b
  {
    var q, r := a / b, a % b;
    assert a == q * b + r;
    assert a as real == q as real * b as real + r as real;
    assert a as real / b as real == q as real + r as real / b as real;
    assert 0.0 <= r as real / b as real < 1.0;
  }

  /** The integer form of the font-size formula. */
  lemma FontSizeExact(quoteLength: nat)
    ensures FontSize(quoteLength) ==
            if quoteLength <= 80 then 60 else Max(25, 60 - (2 * quoteLength) / 25)
  {
    if quoteLength > 80 {
      var x := (2 * quoteLength) as real / 25.0;
      assert quoteLength as real / 100.0 * 8.0 == x;
      FloorOfQuotient(2 * quoteLength, 25);
      if 60.0 - x >= 25.0 {
        assert Ceil(60.0 - x) == 60 - x.Floor;
      }
    }
  }

  /** The integer form of the line-width formula. */
  lemma MaxCharsPerLineExact(quoteLength: nat)
    ensures MaxCharsPerLine(quoteLength) ==
            if quoteLength <= 80 then 23 else Min(55, 23 + (3 * quoteLength) / 50)
  {
    if quoteLength > 80 {
      var x := (3 * quoteLength) as real / 50.0;
      assert quoteLength as real / 100.0 * 6.0 == x;
      FloorOfQuotient(3 * quoteLength, 50);
      assert (23.0 + x).Floor == 23 + x.Floor;
    }
  }

  /** Short quotes get the large font and narrow lines; longer ones a font
      between 25 and 60 and a width between 23 and 55. */
  lemma SizeBounds(quoteLength: nat)
    ensures quoteLength <= 80 ==> FontSize(quoteLength) == 60 && MaxCharsPerLine(quoteLength) == 23
    ensures 25 <= FontSize(quoteLength) <= 60
    ensures 23 <= MaxCharsPerLine(quoteLength) <= 55
  {
    FontSizeExact(quoteLength);
    MaxCharsPerLineExact(quoteLength);
  }

  /** A longer quote never gets a larger font or narrower lines. */
  lemma SizeMonotone(shorter: nat, longer: nat)
    requires shorter <= longer
    ensures FontSize(longer) <= FontSize(shorter)
    ensures MaxCharsPerLine(shorter) <= MaxCharsPerLine(longer)
  {
    FontSizeExact(shorter);
    FontSizeExact(longer);
    MaxCharsPerLineExact(shorter);
    MaxCharsPerLineExact(longer);
  }

  // ---------------------------------------------------------------------
  // Attribution

  const Ellipsis := '\U{2026}'

  /** "- book, author", cut to 55 characters plus an ellipsis when longer. */
  function Attribution(book: string, author: string): (a: string)
    ensures |a| <= 56
    ensures var full := "- " + book + ", " + author;
            (|full| <= 55 ==> a == full) &&
            (|full| > 55 ==> |a| == 56 && a[..55] == full[..55] && a[55] == Ellipsis)
  {
    var attribution := "- " + book + ", " + author;
    if |attribution| > 55 then attribution[..55] + [Ellipsis] else attribution
  }

  // ---------------------------------------------------------------------
  // Marking the spoken time

  /** The spoken time matches the quote at `i`, ignoring ASCII case. */
  predicate MatchesAt(quote: string, humanTime: string, i: int)
  {
    0 <= i && i + |humanTime| <= |quote| && Lower(quote[i..i + |humanTime|]) == Lower(humanTime)
  }

  /** The first match at or after `from`. */
  function FindFrom(quote: string, humanTime: string, from: nat): (r: Option<nat>)
    ensures r.Some? ==> from <= r.value && MatchesAt(quote, humanTime, r.value)
    ensures r.Some? ==> forall j :: from <= j < r.value ==> !MatchesAt(quote, humanTime, j)
    ensures r.None? ==> forall j :: from <= j ==> !MatchesAt(quote, humanTime, j)
    decreases |quote| - from
  {
    if from + |humanTime| > |quote| then None
    else if MatchesAt(quote, humanTime, from) then Some(from)
    else FindFrom(quote, humanTime, from + 1)
  }

  /** The first case-insensitive occurrence of the spoken time wrapped in '|';
      the quote is left alone when the time does not occur. */
  function MarkTime(quote: string, humanTime: string): (marked: string)
    ensures FindFrom(quote, humanTime, 0).None? ==> marked == quote
    ensures FindFrom(quote, humanTime, 0).Some? ==>
              var i, n := FindFrom(quote, humanTime, 0).value, |humanTime|;
              |marked| == |quote| + 2 && marked[i] == '|' && marked[i + n + 1] == '|' &&
              marked[..i] == quote[..i] && marked[i + 1..i + n + 1] == quote[i..i + n] &&
              marked[i + n + 2..] == quote[i + n..]
  {
    match FindFrom(quote, humanTime, 0)
    case None => quote
    case Some(i) =>
      var n := |humanTime|;
      quote[..i] + "|" + quote[i..i + n] + "|" + quote[i + n..]
  }

  // ---------------------------------------------------------------------
  // Line colouring

  datatype Colour = Black | Red

  /** A piece of a line drawn in one colour. */
  datatype Span = Span(text: string, colour: Colour)

  function Texts(spans: seq<Span>): string
  {
    if spans == [] then "" else spans[0].text + Texts(spans[1..])
  }

  function Colours(spans: seq<Span>): seq<Colour>
  {
    if spans == [] then [] else [spans[0].colour] + Colours(spans[1..])
  }

  lemma ConcatTwo(parts: seq<string>)
    requires |parts| == 2
    ensures Concat(parts) == parts[0] + parts[1]
    ensures Texts([Span(parts[0], Black), Span(parts[1], Red)]) == parts[0] + parts[1]
    ensures Colours([Span(parts[0], Black), Span(parts[1], Red)]) == [Black, Red]
  {
    assert Concat(parts[1..]) == parts[1] + Concat(parts[2..]);
    assert parts[0] + parts[1] + "" == parts[0] + parts[1];
    var spans := [Span(parts[0], Black), Span(parts[1], Red)];
    assert Texts(spans[1..]) == parts[1] + Texts(spans[2..]);
    assert Colours(spans[1..]) == [Red] + Colours(spans[2..]);
  }

  lemma ConcatThree(parts: seq<string>)
    requires |parts| == 3
    ensures Concat(parts) == parts[0] + parts[1] + parts[2]
    ensures Texts([Span(parts[0], Black), Span(parts[1], Red), Span(parts[2], Black)]) == parts[0] + parts[1] + parts[2]
    ensures Colours([Span(parts[0], Black), Span(parts[1], Red), Span(parts[2], Black)]) == [Black, Red, Black]
  {
    ConcatTwo(parts[1..]);
    var spans := [Span(parts[0], Black), Span(parts[1], Red), Span(parts[2], Black)];
    assert spans[1..][1..] == spans[2..];
    assert Texts(spans[2..]) == parts[2] + Texts(spans[3..]);
    assert Colours(spans[2..]) == [Black] + Colours(spans[3..]);
  }

  lemma PipeFreeUnchanged(line: string)
    ensures Count(line, '|') == 0 ==> ReplaceAll(line, "|", "") == line
  {
    CharOccurs(line, '|');
    if Count(line, '|') == 0 {
      ReplaceAllAbsent(line, "|", "");
    }
  }

  /** How one wrapped line is drawn, given whether the time began on an
      earlier line and has not ended yet; also returns the updated flag. */
  function LineSpans(line: string, timeEndsOnNextLine: bool): (out: (seq<Span>, bool))
    ensures Count(line, '|') == 2 ==> Colours(out.0) == [Black, Red, Black] && out.1 == timeEndsOnNextLine
    ensures Count(line, '|') == 1 && !timeEndsOnNextLine ==> Colours(out.0) == [Black, Red] && out.1
    ensures Count(line, '|') == 1 && timeEndsOnNextLine ==> Colours(out.0) == [Red] && !out.1
    ensures Count(line, '|') != 1 && Count(line, '|') != 2 ==>
              out.0 == [Span(line, Black)] && out.1 == timeEndsOnNextLine
    ensures Texts(out.0) == if Count(line, '|') <= 2 then ReplaceAll(line, "|", "") else line
  {
    var pipes := Count(line, '|');
    if pipes == 2 then
      var parts := Split(line, '|');
      ConcatSplit(line, '|');
      ConcatThree(parts);
      ([Span(parts[0], Black), Span(parts[1], Red), Span(parts[2], Black)], timeEndsOnNextLine)
    else if pipes == 1 && !timeEndsOnNextLine then
      var parts := Split(line, '|');
      ConcatSplit(line, '|');
      ConcatTwo(parts);
      ([Span(parts[0], Black), Span(parts[1], Red)], true)
    else if pipes == 1 && timeEndsOnNextLine then
      ([Span(ReplaceAll(line, "|", ""), Red)], false)
    else
      PipeFreeUnchanged(line);
      assert Texts([Span(line, Black)]) == line;
      ([Span(line, Black)], timeEndsOnNextLine)
  }

  /** The flag after drawing the given lines from the start. */
  function FlagAfter(lines: seq<string>): bool
  {
    if lines == [] then false
    else LineSpans(lines[|lines| - 1], FlagAfter(lines[..|lines| - 1])).1
  }

  /** How each of the given lines is drawn, from the start of the quote. */
  function ColouredLines(lines: seq<string>): (out: seq<seq<Span>>)
    ensures |out| == |lines|
  {
    if lines == [] then []
    else
      var init := lines[..|lines| - 1];
      ColouredLines(init) + [LineSpans(lines[|lines| - 1], FlagAfter(init)).0]
  }

  /** The text that reaches the screen for a line: the line without its pipes,
      or the whole line, pipes included, when it has more than two. */
  function DrawnText(line: string): string
  {
    if Count(line, '|') <= 2 then ReplaceAll(line, "|", "") else line
  }

  /** Line i is drawn with the flag left by the lines before it, whatever
      lines follow. */
  lemma {:induction false} ColouredLineAt(lines: seq<string>, i: nat)
    requires i < |lines|
    ensures ColouredLines(lines)[i] == LineSpans(lines[i], FlagAfter(lines[..i])).0
  {
    var init := lines[..|lines| - 1];
    if i < |init| {
      ColouredLineAt(init, i);
      assert init[..i] == lines[..i];
    } else {
      assert init == lines[..i];
    }
  }

  /** Whatever the flag, every line's text is drawn in full and in order. */
  lemma ColouredLinesTexts(lines: seq<string>)
    ensures forall i :: 0 <= i < |lines| ==> Texts(ColouredLines(lines)[i]) == DrawnText(lines[i])
  {
    forall i | 0 <= i < |lines|
      ensures Texts(ColouredLines(lines)[i]) == DrawnText(lines[i])
    {
      ColouredLineAt(lines, i);
      assert Texts(LineSpans(lines[i], FlagAfter(lines[..i])).0) == DrawnText(lines[i]);
    }
  }

  /** The drawing loop over the wrapped lines, without the drawing calls. */
  method ColourLines(lines: seq<string>) returns (out: seq<seq<Span>>)
    ensures out == ColouredLines(lines)
  {
    var timeEndsOnNextLine := false;
    out := [];
    for i := 0 to |lines|
      invariant out == ColouredLines(lines[..i])
      invariant timeEndsOnNextLine == FlagAfter(lines[..i])
    {
      assert lines[..i + 1][..i] == lines[..i];
      var drawn := LineSpans(lines[i], timeEndsOnNextLine);
      out := out + [drawn.0];
      timeEndsOnNextLine := drawn.1;
    }
    assert lines[..|lines|] == lines;
  }

  /** A line holding the whole marked time is drawn black, red, black. */
  lemma TimeOnOneLine(before: string, time: string, after: string)
    requires '|' !in before && '|' !in time && '|' !in after
    ensures ColouredLines([before + "|" + time + "|" + after]) ==
            [[Span(before, Black), Span(time, Red), Span(after, Black)]]
  {
    var line := before + "|" + time + "|" + after;
    SplitThree(before, time, after);
    assert [line][..0] == [];
  }

  lemma SplitThree(before: string, time: string, after: string)
    requires '|' !in before && '|' !in time && '|' !in after
    ensures Split(before + "|" + time + "|" + after, '|') == [before, time, after]
  {
    assert before + "|" + time + "|" + after == before + ['|'] + (time + ['|'] + after);
    SplitAt(before, time + ['|'] + after, '|');
    SplitAt(time, after, '|');
    SplitFree(after, '|');
  }

  /** When the time is wrapped onto the next line, the rest of that next line
      is drawn red as well, and the flag is cleared again. */
  lemma TimeAcrossTwoLines(before: string, first: string, second: string, after: string)
    requires '|' !in before && '|' !in first && '|' !in second && '|' !in after
    ensures ColouredLines([before + "|" + first, second + "|" + after]) ==
            [[Span(before, Black), Span(first, Red)], [Span(second + after, Red)]]
    ensures !FlagAfter([before + "|" + first, second + "|" + after])
  {
    var line1, line2 := before + "|" + first, second + "|" + after;
    SplitAt(before, first, '|');
    SplitFree(first, '|');
    assert Split(line1, '|') == [before, first];
    SplitAt(second, after, '|');
    SplitFree(after, '|');
    assert Split(line2, '|') == [second, after];
    ConcatSplit(line2, '|');
    ConcatTwo([second, after]);
    var lines := [line1, line2];
    assert lines[..1] == [line1];
    assert [line1][..0] == [];
  }

  /** The three pieces of a marked pipe-free quote, none holding a pipe. */
  lemma MarkedPieces(quote: string, humanTime: string) returns (before: string, time: string, after: string)
    requires '|' !in quote && FindFrom(quote, humanTime, 0).Some?
    ensures var i, n := FindFrom(quote, humanTime, 0).value, |humanTime|;
            before == quote[..i] && time == quote[i..i + n] && after == quote[i + n..]
    ensures '|' !in before && '|' !in time && '|' !in after
    ensures MarkTime(quote, humanTime) == before + "|" + time + "|" + after
  {
    var i, n := FindFrom(quote, humanTime, 0).value, |humanTime|;
    before, time, after := quote[..i], quote[i..i + n], quote[i + n..];
    assert quote == before + time + after;
  }

  /** Marking a pipe-free quote adds exactly the two pipes around the match. */
  lemma MarkedTimeSplit(quote: string, humanTime: string)
    requires '|' !in quote
    ensures FindFrom(quote, humanTime, 0).None? ==> Count(MarkTime(quote, humanTime), '|') == 0
    ensures FindFrom(quote, humanTime, 0).Some? ==>
              var i, n := FindFrom(quote, humanTime, 0).value, |humanTime|;
              Split(MarkTime(quote, humanTime), '|') == [quote[..i], quote[i..i + n], quote[i + n..]]
  {
    if FindFrom(quote, humanTime, 0).Some? {
      var i, n := FindFrom(quote, humanTime, 0).value, |humanTime|;
      var before, time, after := MarkedPieces(quote, humanTime);
      SplitThree(before, time, after);
    } else {
      CharOccurs(quote, '|');
    }
  }

  /** A marked quote short enough for one line shows exactly the matched
      text in red, with the text around it in black. */
  lemma MarkedQuoteOnOneLine(quote: string, humanTime: string)
    requires '|' !in quote && FindFrom(quote, humanTime, 0).Some?
    ensures var i, n := FindFrom(quote, humanTime, 0).value, |humanTime|;
            ColouredLines([MarkTime(quote, humanTime)]) ==
            [[Span(quote[..i], Black), Span(quote[i..i + n], Red), Span(quote[i + n..], Black)]]
  {
    var before, time, after := MarkedPieces(quote, humanTime);
    TimeOnOneLine(before, time, after);
  }

  // ---------------------------------------------------------------------
  // The whole card

  /** What the card shows for a chosen row. */
  datatype Screen = Screen(quote: string, fontSize: int, maxCharsPerLine: int, attribution: string)

  /** The card for a chosen row: cleaned and marked quote, sizes, attribution. */
  function QuoteScreen(chosen: Row): (s: Screen)
    ensures 25 <= s.fontSize <= 60 && 23 <= s.maxCharsPerLine <= 55
    ensures |s.attribution| <= 56
  {
    var quote := CleanQuote(chosen.fullQuote);
    SizeBounds(|quote|);
    Screen(MarkTime(quote, CleanTime(chosen.timeHuman)), FontSize(|quote|), MaxCharsPerLine(|quote|),
           Attribution(chosen.bookTitle, chosen.authorName))
  }

  /** The body of the script's main step for one minute: nothing is drawn when
      no row has the current time, otherwise the shortest quote is prepared. */
  method PrepareScreen(rows: seq<Row>, hour: int, minute: int) returns (screen: Option<Screen>)
    requires 0 <= hour < 24 && 0 <= minute < 60
    ensures var timeRows := MatchingRows(rows, FormatHHMM(hour, minute));
            (screen.None? <==> timeRows == []) &&
            (screen.Some? ==> screen.value == QuoteScreen(timeRows[ShortestIndex(timeRows)]))
  {
    var currentTime := FormatHHMM(hour, minute);
    var timeRows := FilterRows(rows, currentTime);
    if |timeRows| == 0 {
      return None;
    }
    var chosen := timeRows[ShortestIndex(timeRows)];
    var quote, book, author, humanTime := chosen.fullQuote, chosen.bookTitle, chosen.authorName, chosen.timeHuman;
    quote := ReplaceBreaks(quote);
    quote := Translate(quote);
    humanTime := Translate(humanTime);
    quote := AsciiOnly(quote);
    humanTime := AsciiOnly(humanTime);
    var quoteLength := |quote|;
    var fontSize := FontSize(quoteLength);
    var maxCharsPerLine := MaxCharsPerLine(quoteLength);
    var attribution := Attribution(book, author);
    quote := MarkTime(quote, humanTime);
    screen := Some(Screen(quote, fontSize, maxCharsPerLine, attribution));
  }
}
