/** The word clock: a fixed 9 x 13 grid of letters in which the current time is
    spelled out by lighting cells ("IT IS TWENTY FIVE PAST FOUR"). The drawing
    of the grid is replaced by the sequence of cells lit red, in the order the
    script lights them. The coordinate lists are those of the script, including
    the ones that do not cover the word they are meant for. */
module WordClock {

  /** A (row, column) position in the letter grid. */
  datatype Cell = Cell(row: int, col: int)

  /** The letter grid, one string per row. */
  const Letters: seq<string> := [
    "ITRISUHALFTEN",
    "QUARTERTWENTY",
    "FIVEQMINUTEST",
    "PASTMTOSAMOPM",
    "ONENTWOZTHREE",
    "FOURFIVESEVEN",
    "SIXEIGHTYNINE",
    "TENELEVENPHIL",
    "TWELVELOCLOCK"
  ]

  const Rows := 9
  const Columns := 13

  /** The grid is 9 rows of 13 letters. */
  lemma GridShape()
    ensures |Letters| == Rows
    ensures forall r :: 0 <= r < Rows ==> |Letters[r]| == Columns
  {
  }

  predicate InGrid(c: Cell)
  {
    0 <= c.row < Rows && 0 <= c.col < Columns
  }

  predicate AllInGrid(cells: seq<Cell>)
  {
    forall i :: 0 <= i < |cells| ==> InGrid(cells[i])
  }

  /** `letters[i][j]`, which the grid's shape keeps in range for every cell. */
  function LetterAt(c: Cell): (letter: char)
    requires InGrid(c)
    ensures letter in Letters[c.row]
  {
    GridShape();
    Letters[c.row][c.col]
  }

  /** The letters under a list of cells, in order. */
  function Spell(cells: seq<Cell>): (s: string)
    requires AllInGrid(cells)
    ensures |s| == |cells|
  {
    seq(|cells|, i requires 0 <= i < |cells| => LetterAt(cells[i]))
  }

  const ItIs: seq<Cell> := [Cell(0, 0), Cell(0, 1), Cell(0, 3), Cell(0, 4)]
  const Past: seq<Cell> := [Cell(3, 0), Cell(3, 1), Cell(3, 2), Cell(3, 3)]
  const To: seq<Cell> := [Cell(3, 5), Cell(3, 6)]

  /** The cells of the O'CLOCK word, at the end of the last row. */
  predicate IsOClockCell(c: Cell)
  {
    c.row == 8 && 7 <= c.col <= 12
  }

  /** The minute phrase lit for a minute value, one five-minute bucket per branch. */
  function MinuteCells(minute: int): (r: seq<Cell>)
    ensures r == [] <==> minute < 5
    ensures AllInGrid(r)
    ensures forall i :: 0 <= i < |r| ==> r[i].row <= 2
  {
    if minute >= 5 && minute < 10 then [Cell(2, 0), Cell(2, 1), Cell(2, 2), Cell(2, 3)]  // FIVE
    else if minute >= 10 && minute < 15 then [Cell(0, 9), Cell(0, 10), Cell(0, 11)]  // TEN
    else if minute >= 15 && minute < 20 then [Cell(1, 0), Cell(1, 1), Cell(1, 2), Cell(1, 3), Cell(1, 4), Cell(1, 5), Cell(1, 6)]  // QUARTER
    else if minute >= 20 && minute < 25 then [Cell(1, 7), Cell(1, 8), Cell(1, 9), Cell(1, 10), Cell(1, 11)]  // TWENTY
    else if minute >= 25 && minute < 30 then [Cell(1, 7), Cell(1, 8), Cell(1, 9), Cell(1, 10), Cell(1, 11), Cell(2, 0), Cell(2, 1), Cell(2, 2), Cell(2, 3)]  // TWENTY FIVE
    else if minute >= 30 && minute < 35 then [Cell(0, 6), Cell(0, 7), Cell(0, 8)]  // HALF
    else if minute >= 35 && minute < 40 then [Cell(1, 7), Cell(1, 8), Cell(1, 9), Cell(1, 10), Cell(1, 11), Cell(2, 0), Cell(2, 1), Cell(2, 2), Cell(2, 3)]  // TWENTY FIVE
    else if minute >= 40 && minute < 45 then [Cell(1, 7), Cell(1, 8), Cell(1, 9), Cell(1, 10), Cell(1, 11)]  // TWENTY
    else if minute >= 45 && minute < 50 then [Cell(1, 0), Cell(1, 1), Cell(1, 2), Cell(1, 3), Cell(1, 4), Cell(1, 5), Cell(1, 6)]  // QUARTER
    else if minute >= 50 && minute < 55 then [Cell(0, 9), Cell(0, 10), Cell(0, 11)]  // TEN
    else if minute >= 55 then [Cell(2, 0), Cell(2, 1), Cell(2, 2), Cell(2, 3)]  // FIVE
    else []
  }

  /** PAST for the first half hour after five past, TO from twenty-five to. */
  function ConnectorCells(minute: int): (r: seq<Cell>)
    ensures r == Past <==> 5 <= minute < 35
    ensures r == To <==> minute >= 35
    ensures r == [] <==> minute < 5
    ensures AllInGrid(r)
  {
    if minute >= 5 && minute < 35 then Past
    else if minute >= 35 then To
    else []
  }

  /** The hour table of `highlight_hours`; an hour outside the table lights nothing. */
  function HourCells(hour: int): (r: seq<Cell>)
    ensures r == [] <==> !(1 <= hour <= 12)
    ensures AllInGrid(r)
    ensures forall i :: 0 <= i < |r| ==> 4 <= r[i].row && !IsOClockCell(r[i])
  {
    match hour
    case 1 => [Cell(4, 0), Cell(4, 1), Cell(4, 2)]  // ONE
    case 2 => [Cell(4, 5), Cell(4, 6), Cell(4, 7)]  // TWO
    case 3 => [Cell(4, 9), Cell(4, 10), Cell(4, 11), Cell(4, 12)]  // THREE
    case 4 => [Cell(5, 0), Cell(5, 1), Cell(5, 2), Cell(5, 3)]  // FOUR
    case 5 => [Cell(5, 4), Cell(5, 5), Cell(5, 6), Cell(5, 7)]  // FIVE
    case 6 => [Cell(6, 0), Cell(6, 1), Cell(6, 2)]  // SIX
    case 7 => [Cell(5, 8), Cell(5, 9), Cell(5, 10), Cell(5, 11), Cell(5, 12)]  // SEVEN
    case 8 => [Cell(6, 4), Cell(6, 5), Cell(6, 6), Cell(6, 7)]  // EIGHT
    case 9 => [Cell(6, 8), Cell(6, 9), Cell(6, 10), Cell(6, 11)]  // NINE
    case 10 => [Cell(7, 0), Cell(7, 1), Cell(7, 2)]  // TEN
    case 11 => [Cell(7, 4), Cell(7, 5), Cell(7, 6), Cell(7, 7), Cell(7, 8), Cell(7, 9)]  // ELEVEN
    case 12 => [Cell(8, 0), Cell(8, 1), Cell(8, 2), Cell(8, 3), Cell(8, 4), Cell(8, 5)]  // TWELVE
    case _ => []
  }

  /** The hour word shown: the hour on a 12-hour dial, the next one from
      twenty-five to, and twelve instead of zero. */
  function DisplayedHour(hour: int, minute: int): (d: int)
    ensures 1 <= d <= 12
    ensures d % 12 == (hour + (if minute >= 35 then 1 else 0)) % 12
  {
    var hours := hour % 12;
    var hours' := if minute >= 35 then hours + 1 else hours;
    if hours' == 0 then 12 else hours'
  }

  /** Every cell lit for a time, in the order `update_clock` lights them. */
  function Highlights(hour: int, minute: int): (r: seq<Cell>)
    ensures ItIs <= r
    ensures AllInGrid(r)
    ensures |r| > |ItIs|
  {
    var phrase, connector, hourWord := MinuteCells(minute), ConnectorCells(minute), HourCells(DisplayedHour(hour, minute));
    AllInGridAppend(ItIs, phrase);
    AllInGridAppend(ItIs + phrase, connector);
    AllInGridAppend(ItIs + phrase + connector, hourWord);
    ItIs + phrase + connector + hourWord
  }

  lemma HighlightsParts(hour: int, minute: int)
    ensures Highlights(hour, minute) ==
            ItIs + MinuteCells(minute) + ConnectorCells(minute) + HourCells(DisplayedHour(hour, minute))
  {
  }

  lemma AllInGridAppend(a: seq<Cell>, b: seq<Cell>)
    requires AllInGrid(a) && AllInGrid(b)
    ensures AllInGrid(a + b)
  {
    forall i | 0 <= i < |a + b|
      ensures InGrid((a + b)[i])
    {
      if i >= |a| {
        assert (a + b)[i] == b[i - |a|];
      }
    }
  }

  /** The clock's drawing state: the cells drawn in red and their letters. */
  class SentenceClock {
    var highlighted: seq<Cell>
    var redText: string

    ghost predicate Valid()
      reads this
    {
      AllInGrid(highlighted) && redText == Spell(highlighted)
    }

    /** Builds the clock and draws the given time. */
    constructor (hour: int, minute: int)
      ensures Valid() && highlighted == Highlights(hour, minute)
    {
      highlighted, redText := [], "";
      new;
      UpdateClock(hour, minute);
    }

    /** Redraws the grid for a time: the whole grid in black first, then the
        phrase cells in red. */
    method UpdateClock(hour: int, minute: int)
      modifies this
      ensures Valid() && highlighted == Highlights(hour, minute)
    {
      var hours := hour % 12;
      // Drawing every letter in black covers whatever was red before.
      highlighted, redText := [], "";
      HighlightLetters(ItIs);
      HighlightLetters(MinuteCells(minute));
      ghost var lit := highlighted;
      assert lit == ItIs + MinuteCells(minute);
      if minute >= 5 && minute < 35 {
        HighlightLetters(Past);
      } else if minute >= 35 {
        HighlightLetters(To);
      }
      assert highlighted == lit + ConnectorCells(minute);
      if minute >= 35 {
        hours := hours + 1;
      }
      if hours == 0 {
        hours := 12;
      }
      assert hours == DisplayedHour(hour, minute);
      HighlightHours(hours);
      HighlightsParts(hour, minute);
    }

    /** Draws the letters at the given cells in red, one after the other. */
    method HighlightLetters(indices: seq<Cell>)
      requires Valid()
      requires AllInGrid(indices)
      modifies this
      ensures Valid() && highlighted == old(highlighted) + indices
    {
      for k := 0 to |indices|
        invariant Valid() && highlighted == old(highlighted) + indices[..k]
      {
        var c := indices[k];
        var letter := LetterAt(c);
        AllInGridAppend(highlighted, [c]);
        highlighted, redText := highlighted + [c], redText + [letter];
        assert indices[..k + 1] == indices[..k] + [c];
      }
    }

    /** Draws an hour word, if the hour is in the table. */
    method HighlightHours(hour: int)
      requires Valid()
      modifies this
      ensures Valid() && highlighted == old(highlighted) + HourCells(hour)
    {
      if 1 <= hour <= 12 {
        HighlightLetters(HourCells(hour));
      }
    }
  }

  // ---------------------------------------------------------------------
  // Properties of the highlight computation

  /** Before five past, only IT IS and the hour word are lit. */
  lemma NoPhraseBeforeFive(hour: int, minute: int)
    requires 0 <= minute < 5
    ensures Highlights(hour, minute) == ItIs + HourCells(DisplayedHour(hour, minute))
  {
  }

  /** Nothing is ever lit in the O'CLOCK word. */
  lemma NeverOClock(hour: int, minute: int)
    ensures forall c :: c in Highlights(hour, minute) ==> !IsOClockCell(c)
  {
  }

  /** Buckets b and 60 - b (b = 5, 10, 15, 20, 25) light the same phrase. */
  lemma MinuteSymmetry(minute: int)
    requires 5 <= minute < 30
    ensures MinuteCells(minute) == MinuteCells(60 - (minute - minute % 5) + minute % 5)
  {
  }

  /** TWENTY FIVE is the TWENTY list followed by the FIVE list. */
  lemma TwentyFiveIsTwentyThenFive()
    ensures MinuteCells(25) == MinuteCells(20) + MinuteCells(5)
    ensures MinuteCells(35) == MinuteCells(40) + MinuteCells(55)
  {
  }

  /** Each minute from 5 to 59 lights one of the six phrases. */
  lemma OnePhrasePerBucket(minute: int)
    requires 5 <= minute < 60
    ensures MinuteCells(minute) in {MinuteCells(5), MinuteCells(10), MinuteCells(15),
                                   MinuteCells(20), MinuteCells(25), MinuteCells(30)}
    ensures MinuteCells(minute) == MinuteCells(minute - minute % 5)
  {
  }

  /** PAST is lit exactly from five past to before twenty-five to, TO exactly
      from twenty-five to, never both; no other phrase uses row 3. */
  lemma PastOrTo(hour: int, minute: int)
    ensures Cell(3, 0) in Highlights(hour, minute) <==> 5 <= minute < 35
    ensures Cell(3, 5) in Highlights(hour, minute) <==> minute >= 35
    ensures !(Cell(3, 0) in Highlights(hour, minute) && Cell(3, 5) in Highlights(hour, minute))
  {
  }

  /** The hours h and h + 12 are drawn alike. */
  lemma TwelveHourDial(hour: int, minute: int)
    ensures Highlights(hour, minute) == Highlights(hour + 12, minute)
  {
  }

  /** What the minute and connector lists actually spell: TEN, TWENTY and HALF
      are cut short or shifted. */
  lemma SpelledMinuteWords()
    ensures Spell(ItIs) == "ITIS"
    ensures Spell(MinuteCells(5)) == "FIVE"
    ensures Spell(MinuteCells(10)) == "FTE"
    ensures Spell(MinuteCells(15)) == "QUARTER"
  {
  }

  lemma SpelledLateMinuteWords()
    ensures Spell(MinuteCells(20)) == "TWENT"
    ensures Spell(MinuteCells(30)) == "HAL"
    ensures Spell(Past) == "PAST" && Spell(To) == "TO"
  {
  }

  /** What the hour lists actually spell: TWO, NINE and ELEVEN are shifted by
      one cell, THREE and EIGHT are cut short by their first letter. */
  lemma SpelledHourWords()
    ensures Spell(HourCells(1)) == "ONE" && Spell(HourCells(2)) == "WOZ"
    ensures Spell(HourCells(3)) == "HREE" && Spell(HourCells(4)) == "FOUR"
  {
  }

  lemma SpelledMiddleHourWords()
    ensures Spell(HourCells(5)) == "FIVE" && Spell(HourCells(6)) == "SIX"
    ensures Spell(HourCells(7)) == "SEVEN" && Spell(HourCells(8)) == "IGHT"
  {
  }

  lemma SpelledLateHourWords()
    ensures Spell(HourCells(9)) == "YNIN" && Spell(HourCells(10)) == "TEN"
    ensures Spell(HourCells(11)) == "LEVENP" && Spell(HourCells(12)) == "TWELVE"
  {
  }

  /** Worked times: what is lit, as segments. */
  lemma Scenarios()
    ensures Highlights(4, 25) == ItIs + MinuteCells(25) + Past + HourCells(4)
    ensures Highlights(4, 40) == ItIs + MinuteCells(20) + To + HourCells(5)
    ensures Highlights(11, 0) == ItIs + HourCells(11)
    ensures Highlights(23, 35) == ItIs + MinuteCells(25) + To + HourCells(12)
    ensures Highlights(0, 5) == ItIs + MinuteCells(5) + Past + HourCells(12)
  {
  }
}
