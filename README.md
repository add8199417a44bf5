# E-paper info screens: verified model of the decision logic

The repository drives a 7.5 inch black/red/white e-paper panel from a
Raspberry Pi. Several scripts render screens and one driver script shows
them. This project models the deterministic logic inside those scripts and
proves its properties in Dafny:

- **Word clock** (`sentence_clock.dfy`, module `WordClock`). A 9×13 letter
  grid where "IT IS", a five-minute phrase, PAST or TO, and the hour word are
  drawn in red. The class `SentenceClock` keeps the sequence of highlighted
  cells and the red letters drawn so far. `UpdateClock`, `HighlightLetters`
  and `HighlightHours` grow that sequence as the script's methods do. Every
  coordinate list is reproduced as written, including the ones that do not
  spell their word: TEN spells "FTE", TWENTY spells "TWENT", HALF spells
  "HAL", TWO spells "WOZ", NINE spells "YNIN" and ELEVEN spells "LEVENP"
  (shifted by one cell), and THREE and EIGHT spell "HREE" and "IGHT" (cut
  short by their first letter). The `Spelled…Words` lemmas show what each
  list spells. The grid has O'CLOCK at row 8, columns 7–12, but no branch of
  the code lights it, and no time is rejected.
- **Panel driver** (`display.dfy`, module `Display`). The
  `WAVESHARE_EPD75_VERSION` switch (default "2B"), the full clear at 02:00,
  and the split of an RGB image into the panel's black and red 1-bit channels.
  The split is a nested loop over two-dimensional arrays that start at 255.
- **Literature clock** (`literature_clock.dfy`, module `LiteratureClock`).
  The main step of the literature-clock script:
  - select the quote-table rows for the current `HH:MM`;
  - take the first row with the shortest quote;
  - clean the text (line breaks, punctuation table, ASCII only);
  - compute the font-size and line-width formulas;
  - truncate the attribution;
  - wrap the first case-insensitive occurrence of the spoken time in `|`;
  - run the per-line colouring loop driven by the `time_ends_on_next_line`
    flag. The loop is modelled without its drawing calls: it maps wrapped
    lines to coloured spans.
- **Weather card** (`weather_screen.dfy`, module `WeatherScreen`):
  - the WMO weather-code icon table;
  - the strict-threshold colour rule;
  - the filling of the SVG template's `{KEYn}`, `{ICON_IDn}`,
    `{ICONn_PATHk}` and `{KEYn_COLOR}` placeholders for three days, with
    escaping of the path data;
  - the 10:00–18:00 inclusive per-date maxima of hourly humidity and
    air-quality index.
- `text.dfy` (module `TextOps`) has the Python string operations these rely
  on: `str.replace`, `count`, `split`, `join`, ASCII lower-casing and `str`
  of an integer. `options.dfy` has the `Option` type.

`str.replace` keeps Python's left-to-right, non-overlapping semantics. So
"every occurrence is replaced" only holds in the form proved in
`TextOps.ReplaceAllRemoves`: the replacement must be non-empty and share no
character with the pattern. Otherwise a replacement can complete a partial
occurrence around it (`WeatherScreen.PlaceholderCanReform`).

The size formulas are computed with real numbers, as the script computes
them with floats. Real and float results agree here for two reasons:
- `L/100` is exact in binary whenever the exact result is an integer, which
  happens when L is a multiple of 25 for the font and of 50 for the width;
- every other exact result is at least 0.02 from an integer.

## Model

| member | source | states |
|---|---|---|
| WordClock.GridShape | sentence_clock.py:8-18 | the letter grid has 9 rows of 13 letters each |
| WordClock.LetterAt | sentence_clock.py:96 | a cell inside the grid reads the letter at that row and column |
| WordClock.MinuteCells | sentence_clock.py:54-76 | the phrase is empty exactly below minute 5, inside the grid, and confined to rows 0–2 |
| WordClock.ConnectorCells | sentence_clock.py:78-82 | PAST exactly for 5 ≤ m < 35, TO exactly for m ≥ 35, nothing exactly for m < 5 |
| WordClock.HourCells | sentence_clock.py:98-115 | the hour table lights nothing exactly for hours outside 1..12; its cells lie in rows 4–8 of the grid and never in O'CLOCK |
| WordClock.DisplayedHour | sentence_clock.py:41-89 | the hour drawn is always in 1..12, and is congruent mod 12 to the hour, plus one from minute 35 |
| WordClock.Highlights | sentence_clock.py:37-89 | the cells lit for a time start with IT IS, add at least one more cell, and all lie in the grid |
| WordClock.SentenceClock.constructor | sentence_clock.py:6-32 | a new clock has drawn the given time |
| WordClock.SentenceClock.UpdateClock | sentence_clock.py:37-89 | after the redraw, the red cells are exactly those lit for the time, with their letters, and the state stays valid |
| WordClock.SentenceClock.HighlightLetters | sentence_clock.py:91-96 | the given cells are appended in order, with their letters, and every index stays inside the grid |
| WordClock.SentenceClock.HighlightHours | sentence_clock.py:98-115 | the hour word's cells are appended; an hour outside the table appends nothing |
| WordClock.NoPhraseBeforeFive | sentence_clock.py:54-82 | for minutes 0–4 only IT IS and the hour word are lit: no phrase, no PAST, no TO |
| WordClock.NeverOClock | sentence_clock.py:52-115 | no time lights any O'CLOCK cell |
| WordClock.MinuteSymmetry | sentence_clock.py:55-76 | buckets b and 60 − b (b = 5, 10, 15, 20, 25) light identical cell lists |
| WordClock.TwentyFiveIsTwentyThenFive | sentence_clock.py:55-68 | both TWENTY FIVE lists are the TWENTY list followed by the FIVE list |
| WordClock.OnePhrasePerBucket | sentence_clock.py:55-76 | each minute 5–59 lights one of the six phrases, the one of its five-minute bucket |
| WordClock.PastOrTo | sentence_clock.py:79-82 | PAST is lit iff 5 ≤ m < 35, TO iff m ≥ 35, never both |
| WordClock.TwelveHourDial | sentence_clock.py:41-89 | hours h and h + 12 are drawn identically |
| WordClock.SpelledMinuteWords | sentence_clock.py:52-60 | the lists spell ITIS, FIVE, FTE and QUARTER |
| WordClock.SpelledLateMinuteWords | sentence_clock.py:62-82 | the lists spell TWENT, HAL, PAST and TO |
| WordClock.SpelledHourWords | sentence_clock.py:101-104 | the lists for 1–4 spell ONE, WOZ, HREE, FOUR |
| WordClock.SpelledMiddleHourWords | sentence_clock.py:105-108 | the lists for 5–8 spell FIVE, SIX, SEVEN, IGHT |
| WordClock.SpelledLateHourWords | sentence_clock.py:109-112 | the lists for 9–12 spell YNIN, TEN, LEVENP, TWELVE |
| WordClock.Scenarios | sentence_clock.py:37-89 | worked times 4:25, 4:40, 11:00, 23:35 and 0:05 light the expected segments |
| Display.PanelVersion | display.py:18 | an unset variable gives "2B", a set one gives its value |
| Display.SelectDriver | display.py:20-25 | "1" selects epd7in5, "2B" epd7in5b_V2, every other version epd7in5_V2 (each an iff) |
| Display.SplitsChannels | display.py:48 | the black/red split runs for version "2B" only; `SplitOnlyForRedPanel` ties it to the driver choice |
| Display.FullClear | display.py:33-35 | the full clear is due at minute 0 of hour 2; `ClearOncePerDay` shows it is once a day |
| Display.SplitOnlyForRedPanel | display.py:48 | the channel split runs exactly when the epd7in5b_V2 driver is selected, including by default |
| Display.ClearOncePerDay | display.py:33-35 | over the minutes of a day, the full clear happens at 02:00 and at no other minute |
| Display.Classify | display.py:62-70 | red iff r > g + 150 and r > b + 150; black iff not red and r, g, b ≤ 150 |
| Display.BlackValue | display.py:65-69 | the black channel is 0 or 255, and 0 exactly for a black pixel |
| Display.RedValue | display.py:62-70 | the red channel is 0 or 255, and 0 exactly for a red pixel |
| Display.ChannelsExclusive | display.py:63-70 | no pixel is 0 in both channels; a pixel with all components ≤ 150 is black 0, red 255 |
| Display.SplitChannels | display.py:48-70 | fresh channel arrays of the image's size hold, at every (x, y), the black and red values of that pixel |
| TextOps.CharOccurs | screen-literature-clock-get.py:112 | a character is in a string iff it occurs as a one-character pattern |
| TextOps.ReplaceAll | screen-literature-clock-get.py:54-57 | `str.replace` scanning left to right over non-overlapping occurrences; a replacement of the pattern's length keeps the length |
| TextOps.ReplaceCharGone | create-weather-screen.py:363 | replacing a character by a text without it leaves none of it, and leaves a text without it unchanged |
| TextOps.ReplaceAllAbsent | screen-literature-clock-get.py:54-57 | replacing a pattern that does not occur changes nothing |
| TextOps.ReplaceAllRemoves | create-weather-screen.py:363 | after `replace`, the pattern no longer occurs when the replacement is non-empty and shares no character with it |
| TextOps.ReplaceAllKeepsAbsent | screen-literature-clock-get.py:54-57 | a `replace` cannot create an absent pattern when the replacement shares no character with it |
| TextOps.Count | screen-literature-clock-get.py:112 | the count is at most the length and is 0 iff the character is absent |
| TextOps.CountAppend | screen-literature-clock-get.py:112 | counting distributes over concatenation |
| TextOps.Split | screen-literature-clock-get.py:113 | the number of parts is the separator count plus one, and no part contains the separator |
| TextOps.SplitFree | screen-literature-clock-get.py:113 | a string without the separator splits into itself |
| TextOps.SplitAt | screen-literature-clock-get.py:113 | the first separator ends the first part |
| TextOps.JoinSplit | screen-literature-clock-get.py:113 | joining the parts with the separator gives back the string |
| TextOps.ConcatSplit | screen-literature-clock-get.py:126 | the parts put together equal the string with every separator removed |
| TextOps.LowerChar | screen-literature-clock-get.py:86 | ASCII capitals move to lower case, every other character is kept |
| TextOps.Lower | screen-literature-clock-get.py:86 | lower-casing keeps the length and works character by character |
| TextOps.NatToString | create-weather-screen.py:340-349 | the decimal form of a number is non-empty and made of digits |
| TextOps.ParseNatToString | create-weather-screen.py:340-349 | reading the decimal form back gives the number |
| TextOps.NatToStringInjective | create-weather-screen.py:340-349 | different numbers have different decimal forms |
| LiteratureClock.TwoDigits | screen-literature-clock-get.py:29 | two digits whose value is the number |
| LiteratureClock.FormatHHMM | screen-literature-clock-get.py:29 | five characters: two digits whose value is the hour, a colon, two digits whose value is the minute |
| LiteratureClock.FormatHHMMInjective | screen-literature-clock-get.py:29 | different times give different keys |
| LiteratureClock.MatchingRows | screen-literature-clock-get.py:37-39 | every kept row is from the table and has the current time |
| LiteratureClock.MatchingRowsCount | screen-literature-clock-get.py:37-39 | a row is kept as many times as it appears iff its time matches, otherwise never |
| LiteratureClock.MatchingRowsAppend | screen-literature-clock-get.py:37-39 | filtering commutes with concatenation, so file order is kept |
| LiteratureClock.FilterRows | screen-literature-clock-get.py:28-39 | the collecting loop yields exactly the matching rows in file order |
| LiteratureClock.ShortestIndex | screen-literature-clock-get.py:46 | the chosen quote is no longer than any other, and every earlier row is strictly longer (first on ties) |
| LiteratureClock.ReplaceBreaks | screen-literature-clock-get.py:54-57 | no `<br/>`, no `<br>` and no non-breaking space remain |
| LiteratureClock.BreakCanReform | screen-literature-clock-get.py:54-57 | the clean-up turns "<br<br />/>" into "<br />", so a "<br />" can remain |
| LiteratureClock.Translate | screen-literature-clock-get.py:60-62 | translation keeps the length and maps each character through the table |
| LiteratureClock.TranslateChar | screen-literature-clock-get.py:60-62 | a table character becomes an ASCII one; any other character is kept |
| LiteratureClock.PunctuationMapped | screen-literature-clock-get.py:60-64 | ‘ ’ ´ become ', “ ” become ", — – become -, and survive the ASCII filter |
| LiteratureClock.AsciiOnly | screen-literature-clock-get.py:63-64 | the result is ASCII only, drawn from the input, and an ASCII input is unchanged |
| LiteratureClock.AsciiOnlyChar | screen-literature-clock-get.py:63-64 | one character is kept exactly when it is ASCII |
| LiteratureClock.AsciiOnlyAppend | screen-literature-clock-get.py:63-64 | the filter distributes over concatenation, so every ASCII character of a mixed text is kept, in order |
| LiteratureClock.CleanQuote | screen-literature-clock-get.py:53-63 | the cleaned quote is ASCII only |
| LiteratureClock.CleanTime | screen-literature-clock-get.py:62-64 | the cleaned spoken time is ASCII only |
| LiteratureClock.FloorOfQuotient | screen-literature-clock-get.py:69-78 | real division rounded down equals integer division |
| LiteratureClock.FontSize | screen-literature-clock-get.py:69-77 | the script's formula on real numbers: 60 − 8·(L/100) above 80 characters, at least 25, rounded up; `FontSizeExact` gives its integer form |
| LiteratureClock.MaxCharsPerLine | screen-literature-clock-get.py:69-78 | the script's formula on real numbers: 23 + 6·(L/100) above 80 characters, at most 55, rounded down; `MaxCharsPerLineExact` gives its integer form |
| LiteratureClock.FontSizeExact | screen-literature-clock-get.py:69-77 | font = 60 for L ≤ 80, otherwise max(25, 60 − ⌊2L/25⌋) |
| LiteratureClock.MaxCharsPerLineExact | screen-literature-clock-get.py:69-78 | width = 23 for L ≤ 80, otherwise min(55, 23 + ⌊3L/50⌋) |
| LiteratureClock.SizeBounds | screen-literature-clock-get.py:69-78 | font 60 and width 23 up to 80 characters; always 25 ≤ font ≤ 60 and 23 ≤ width ≤ 55 |
| LiteratureClock.SizeMonotone | screen-literature-clock-get.py:69-78 | a longer quote never gets a larger font or a smaller width |
| LiteratureClock.Attribution | screen-literature-clock-get.py:80-82 | at most 56 characters; "- book, author" when that fits 55, else its first 55 characters and "…" |
| LiteratureClock.FindFrom | screen-literature-clock-get.py:86-88 | the first case-insensitive match at or after a position, or none anywhere after it |
| LiteratureClock.MatchesAt | screen-literature-clock-get.py:86 | the spoken time occurs at a position, ignoring ASCII case |
| LiteratureClock.MarkTime | screen-literature-clock-get.py:86-88 | pipes go around the first match and the rest of the quote is unchanged; no match leaves the quote as it is |
| LiteratureClock.MarkedTimeSplit | screen-literature-clock-get.py:86-113 | a marked pipe-free quote splits into the text before, the matched time and the text after |
| LiteratureClock.MarkedPieces | screen-literature-clock-get.py:86-88 | the marked quote is before + pipe + time + pipe + after, none of them holding a pipe |
| LiteratureClock.LineSpans | screen-literature-clock-get.py:112-129 | 2 pipes give black/red/black; 1 pipe gives black/red and sets the flag, or all red and clears it; anything else is one black span; the texts are the line without pipes |
| LiteratureClock.ColouredLines | screen-literature-clock-get.py:109-129 | one span list per wrapped line |
| LiteratureClock.FlagAfter | screen-literature-clock-get.py:109-127 | the `time_ends_on_next_line` flag after the given lines, starting from false |
| LiteratureClock.ColourLines | screen-literature-clock-get.py:109-129 | the loop's result is `ColouredLines` of its input: each line drawn under the flag the earlier lines left |
| LiteratureClock.ColouredLineAt | screen-literature-clock-get.py:109-129 | line i is drawn by the single-line rule under the flag left by lines 0..i-1, whatever follows it |
| LiteratureClock.ColouredLinesTexts | screen-literature-clock-get.py:112-129 | every line's spans put together are that line without its pipes (or the line as is when it has more than two) |
| LiteratureClock.ConcatTwo | screen-literature-clock-get.py:119-124 | two parts drawn black then red reproduce the parts in order |
| LiteratureClock.ConcatThree | screen-literature-clock-get.py:112-118 | three parts drawn black, red, black reproduce the parts in order |
| LiteratureClock.PipeFreeUnchanged | screen-literature-clock-get.py:128-129 | a line without pipes is drawn as it is |
| LiteratureClock.SplitThree | screen-literature-clock-get.py:113 | before + pipe + time + pipe + after splits into its three pieces |
| LiteratureClock.TimeOnOneLine | screen-literature-clock-get.py:112-118 | a line holding the whole marked time is drawn black, red, black |
| LiteratureClock.TimeAcrossTwoLines | screen-literature-clock-get.py:119-127 | a time wrapped across two lines is red at the end of the first and over the whole second line, after which the flag is clear |
| LiteratureClock.MarkedQuoteOnOneLine | screen-literature-clock-get.py:86-118 | a marked quote on one line shows exactly the matched text in red |
| LiteratureClock.QuoteScreen | screen-literature-clock-get.py:48-88 | the card's font is in 25..60, its width in 23..55, its attribution at most 56 long |
| LiteratureClock.PrepareScreen | screen-literature-clock-get.py:28-88 | no card exactly when no row has the current time; otherwise the card of the first shortest matching quote |
| WeatherScreen.GetWeatherIcon | create-weather-screen.py:242-273 | "Unknown" exactly for codes outside the 28 WMO codes of the table |
| WeatherScreen.DrizzleIcons | create-weather-screen.py:250-254 | 51/53/55 share the drizzle icon, 56/57 the freezing-drizzle icon |
| WeatherScreen.RainIcons | create-weather-screen.py:255-266 | 61/80, 63/81 and 65/82 share the light, normal and heavy rain icons |
| WeatherScreen.SnowIcons | create-weather-screen.py:260-268 | 71/77/85 share the light-snow icon, 75/86 the heavy-snow icon |
| WeatherScreen.StormIcons | create-weather-screen.py:269-271 | 95/96/99 share the thunderstorm icon |
| WeatherScreen.GetColor | create-weather-screen.py:324-325 | the above-colour only for values strictly above the threshold |
| WeatherScreen.ThresholdIsBelow | create-weather-screen.py:325 | a value equal to the threshold gets the below-colour |
| WeatherScreen.TemperatureColors | create-weather-screen.py:370-371 | HIGH is red iff above 30; LOW is red iff at or below −5 |
| WeatherScreen.RoundHalfEven | create-weather-screen.py:345-349 | the nearest integer, a tie going to the even one |
| WeatherScreen.IntToString | create-weather-screen.py:345-349 | the decimal form, with a minus sign for negatives |
| WeatherScreen.KeyLikeAppend | create-weather-screen.py:370-377 | concatenating placeholder characters gives placeholder characters |
| WeatherScreen.Key | create-weather-screen.py:340-350 | a value placeholder is delimited by braces |
| WeatherScreen.ColorKey | create-weather-screen.py:370-377 | a colour placeholder uses only capitals, digits, braces and underscore |
| WeatherScreen.PathKey | create-weather-screen.py:364-366 | the path placeholder is non-empty |
| WeatherScreen.FirstDifference | create-weather-screen.py:364-366 | a shorter prefix followed by a non-digit differs from a longer digit string at its end |
| WeatherScreen.DigitsThenMark | create-weather-screen.py:364-366 | two digit strings followed by the same non-digit text are equal |
| WeatherScreen.PathKeysDistinct | create-weather-screen.py:361-367 | `{ICONn_PATHk}` placeholders are equal iff day and index are equal |
| WeatherScreen.EscapePathData | create-weather-screen.py:363 | escaped data holds no '"', and data without one is unchanged |
| WeatherScreen.IconKey | create-weather-screen.py:355 | the `{ICON_IDn}` placeholder for the icon name of day n |
| WeatherScreen.Disjoint | create-weather-screen.py:370-377 | a non-placeholder text shares no character with a placeholder |
| WeatherScreen.ReplaceSeqKeepsAbsent | create-weather-screen.py:369-377 | replacing placeholders by non-placeholder texts cannot create an absent placeholder |
| WeatherScreen.ReplaceSeqRemoves | create-weather-screen.py:369-377 | after a series of such replacements, none of the replaced placeholders is left |
| WeatherScreen.ValuePairs | create-weather-screen.py:340-350 | the 11 value placeholders of a day, each non-empty |
| WeatherScreen.ColourPairs | create-weather-screen.py:370-377 | the 8 colour placeholders of a day, each coloured "red" or "black" |
| WeatherScreen.FillFromShort | create-weather-screen.py:328-329 | fewer than three forecast days always fail |
| WeatherScreen.FillPaths | create-weather-screen.py:358-367 | the escaped k-th path value replaces `{ICONn_PATHk}`, for k = 1, 2, … in order |
| WeatherScreen.FillDay | create-weather-screen.py:329-377 | the day's values, icon name, paths and colours, in the script's order; none when the date has no aggregate or its icon file is missing |
| WeatherScreen.FillFrom | create-weather-screen.py:328-377 | days i+1 to 3 filled in turn; none when fewer days are given or one of them fails |
| WeatherScreen.PlaceholderCanReform | create-weather-screen.py:340 | a value replacement can complete a partial placeholder around it |
| WeatherScreen.ColorsFilled | create-weather-screen.py:369-377 | a day with aggregates and an icon file is filled in, and none of its colour placeholders is left |
| WeatherScreen.InWindowSeconds | create-weather-screen.py:293-294 | the window is exactly seconds 36000–64800 of the day, both ends included |
| WeatherScreen.InWindow | create-weather-screen.py:293-294 | the time lies between 10:00:00 and 18:00:00, both included |
| WeatherScreen.DailyMaxima | create-weather-screen.py:288-300 | the per-date maximum humidity and AQI of the samples in the window |
| WeatherScreen.DailyMaximaDates | create-weather-screen.py:293-299 | a date has maxima iff some sample of that date lies in the window |
| WeatherScreen.DailyMaximaBound | create-weather-screen.py:295-299 | every kept sample's humidity and AQI are at most its date's maxima |
| WeatherScreen.DailyMaximaAttained | create-weather-screen.py:295-299 | each date's maximum humidity and AQI are those of kept samples of that date |
| WeatherScreen.AggregateHourly | create-weather-screen.py:288-300 | the filter and group-by loop yields the per-date maxima of the kept samples |
| WeatherScreen.ReplaceIconPaths | create-weather-screen.py:358-367 | the k-th escaped path value goes into `{ICONn_PATHk}`, for k counted from 1 |
| WeatherScreen.ReplacePlaceholders | create-weather-screen.py:318-379 | the template with three days filled in order; none when days, aggregates or an icon file are missing |
| WeatherScreen.FilledTemplate | create-weather-screen.py:318-379 | the template with days 1 to 3 filled in using the maxima of the hourly samples |

## Left out

- Network access: the Open-Meteo client with its cache and retries, and the quote-table download. make_btc_chart.py is not part of this model: it is a fetch and a plot with no logic of its own.
- File and device I/O, handled outside the model:
  - the quote table arrives as a sequence of rows; a field cannot hold '|', which is the table's delimiter;
  - the SVG template is a string, and the extracted path values of each icon file come in a map keyed by file name;
  - PNG output, cairosvg, logging and the e-paper driver calls (`init`, `display`, `getbuffer`, `sleep`, module exit).
- `datetime.now()`: the hour and minute are parameters. display.py reads the clock twice for the 2 AM test; the model reads it once.
- Drawing and font metrics: text positions, `textlength`, `getbbox` and the line offsets. `textwrap.wrap` is left out too; `ColourLines` takes the wrapped lines as input.
- The script computes `font_size` but draws with a fixed 40-point font. The model computes the value and nothing uses it, as in the script.
- The SVG regular expression that extracts path data, `get_day_name`, `format_date`, the `:.1f` and float formatting, and the pandas frame construction and current-date filtering. Their results are text fields of `DailyRow`.
- The cloud-cover mean is floating-point numerics; the per-date mean comes in as a map.
- Humidity and AQI samples are integers, so their text is the integer's decimal form. The source's hourly values are floats.
- Weather codes are integers. The source's codes are floats with integer values.
- A sample's time inside a date is hour, minute and second; sub-second parts are not modelled.
- WeatherScreen.ColorsFilled: proves that every colour placeholder is replaced, not every placeholder. The value and path texts can contain placeholder characters. A text can then complete a partial placeholder left around it (`PlaceholderCanReform`), so "every `{KEYn}` is gone" does not hold for arbitrary templates and data.
- WeatherScreen.ReplaceIconPaths: does not state that `{ICONn_PATHk}` is gone afterwards, for the same reason: path data may contain capitals and digits.
- The per-line `try`/`except` of the colouring loop only guards drawing errors, and the model does no drawing.
- The `sfw` column is read but unused, in the model as in the script.
- LiteratureClock.ReplaceBreaks: does not promise that no "<br />" remains. Replacing one can join the text around it into a new one: `BreakCanReform` shows that "<br<br />/>" comes out as "<br />", as it does with Python's `replace`.
- The `color` parameter of `highlight_letters` and `highlight_hours` is not modelled, because every call passes "red". The model records only which cells are lit red.
- LiteratureClock.MatchesAt: folds case for ASCII letters only, where `re.IGNORECASE` folds all of Unicode. The two agree on the texts the script searches, because `CleanQuote` and `CleanTime` have already removed every non-ASCII character.
