/** The height an output block reserves for a text, and how it holds back trailing newlines. */
module OutputRows {
  import opened Characters
  import opened Numbers
  import opened Options

  const ESCAPE: char := '\U{1B}'

  /** Half rounded up of twice the width: the rows of that many full-width characters. */
  function LineRows(width: nat, cols: nat): nat
    requires cols > 0
  {
    (2 * width + cols - 1) / cols
  }

  /** Does an escape sequence go on behind this character of it? */
  predicate EscapeGoesOn(c: char) {
    c < '@' || c > '~' || c == '['
  }

  /** The count so far: finished rows, characters on the current line, and whether inside an escape sequence. */
  datatype Count = Count(rows: nat, width: nat, escaped: bool)

  function CountChar(s: Count, c: char, cols: nat): Count
    requires cols > 0
  {
    if c == ESCAPE then s.(escaped := true)
    else if s.escaped then s.(escaped := EscapeGoesOn(c))
    else if c == NEWLINE then Count(s.rows + Max(LineRows(s.width, cols), 1), 0, false)
    else s.(width := s.width + 1)
  }

  function CountAll(data: string, cols: nat): Count
    requires cols > 0
  {
    if data == "" then Count(1, 0, false)
    else CountChar(CountAll(data[..|data| - 1], cols), data[|data| - 1], cols)
  }

  function Reserved(data: string, cols: nat): nat
    requires cols > 0
  {
    CountAll(data, cols).rows + LineRows(CountAll(data, cols).width, cols)
  }

  /** Text without newlines or escape sequences goes on the line it is on. */
  lemma {:induction false} CountOfLine(front: string, line: string, cols: nat)
    requires cols > 0 && !CountAll(front, cols).escaped && NEWLINE !in line && ESCAPE !in line
    ensures CountAll(front + line, cols) == CountAll(front, cols).(width := CountAll(front, cols).width + |line|)
  {
    if line == "" {
      assert front + line == front;
    } else {
      var last := line[|line| - 1];
      CountOfLine(front, line[..|line| - 1], cols);
      assert line[..|line| - 1] + [last] == line && last in line;
      assert (front + line)[..|front + line| - 1] == front + line[..|line| - 1];
    }
  }

  lemma RowsOfWidth(width: nat, cols: nat)
    requires cols > 0
    ensures LineRows(width, cols) == 0 <==> width == 0
  {
    if width == 0 {
      DivBelow(cols - 1, cols, 1);
    } else {
      DivAtLeast(2 * width + cols - 1, cols, 1);
    }
  }

  /** One line reserves a row more than it has at full width; one more line its own rows, and one for the line before
      if that is empty. */
  lemma ReservedByLines(front: string, line: string, cols: nat)
    requires cols > 0 && !CountAll(front, cols).escaped && NEWLINE !in line && ESCAPE !in line
    ensures Reserved(line, cols) == 1 + LineRows(|line|, cols)
    ensures Reserved(front + [NEWLINE] + line, cols) ==
            Reserved(front, cols) + LineRows(|line|, cols) + if CountAll(front, cols).width == 0 then 1 else 0
  {
    CountOfLine("", line, cols);
    assert "" + line == line;
    var longer := front + [NEWLINE];
    assert longer[..|longer| - 1] == front;
    RowsOfWidth(CountAll(front, cols).width, cols);
    CountOfLine(longer, line, cols);
  }

  method RequiredRows(data: string, cols: nat) returns (result: nat)
    requires cols > 0
    ensures result == Reserved(data, cols)
  {
    var rows, width, escaped := 1, 0, false;
    for i := 0 to |data|
      invariant rows >= 0 && width >= 0 && Count(rows, width, escaped) == CountAll(data[..i], cols)
    {
      assert data[..i + 1][..i] == data[..i];
      if data[i] == ESCAPE {
        escaped := true;
        continue;
      }
      if escaped {
        escaped := data[i] < '@' || data[i] > '~' || data[i] == '[';
        continue;
      }
      if data[i] == NEWLINE {
        rows := rows + Max(LineRows(width, cols), 1);
        width := 0;
        continue;
      }
      width := width + 1;
    }
    assert data[..|data|] == data;
    result := rows + LineRows(width, cols);
  }

  // ---- A terminal that wraps greedily ---------------------------------------------

  const TAB: char := '\t'
  const BACKSPACE: char := '\U{08}'
  const VERTICAL_TAB: char := '\U{0B}'
  const FORM_FEED: char := '\U{0C}'
  const CARRIAGE_RETURN: char := '\r'
  const INDEX: char := '\U{84}'
  const NEXT_LINE: char := '\U{85}'
  const TAB_WIDTH: nat := 8

  /** The cursor: its row, counted from 1, how many cells of the row are taken, and the escape sequence begun. */
  datatype Cursor = Cursor(row: nat, col: nat, sequence: Option<string>)

  predicate IsControl(c: char) {
    c < ' ' || '\U{80}' <= c <= '\U{9F}'
  }

  /** The terminal turns every line feed into the beginning of the next row. */
  predicate FeedsLine(c: char) {
    c in {NEWLINE, VERTICAL_TAB, FORM_FEED, NEXT_LINE}
  }

  /** Controls are obeyed at once, even inside an escape sequence. */
  function Obey(s: Cursor, c: char, cols: nat): Cursor
    requires cols > 0
  {
    if FeedsLine(c) then s.(row := s.row + 1, col := 0)
    else if c == INDEX then s.(row := s.row + 1, col := Min(s.col, cols - 1))
    else if c == CARRIAGE_RETURN then s.(col := 0)
    else if c == BACKSPACE then s.(col := if Min(s.col, cols - 1) > 0 then Min(s.col, cols - 1) - 1 else 0)
    else if c == TAB then s.(col := if s.col >= cols then s.col else Min((s.col / TAB_WIDTH + 1) * TAB_WIDTH, cols - 1))
    else s
  }

  /** Is this, behind an ESC, a whole sequence? */
  predicate IsWhole(sequence: string)
    requires sequence != ""
  {
    var last := sequence[|sequence| - 1];
    if sequence[0] == '[' then |sequence| > 1 && '@' <= last <= '~' else '0' <= last <= '~'
  }

  /** A whole sequence: the two that feed lines, and any that leaves the cursor where it is. */
  function Perform(s: Cursor, sequence: string, cols: nat): Cursor
    requires cols > 0
  {
    var done := s.(sequence := None);
    if sequence == "D" then Obey(done, INDEX, cols)
    else if sequence == "E" then Obey(done, NEXT_LINE, cols)
    else done
  }

  /** A character that does not fit on the row goes to the next; `cells` says how wide each one is. */
  function Put(s: Cursor, c: char, cols: nat, cells: char -> nat): Cursor
    requires cols > 0
  {
    if c == ESCAPE then s.(sequence := Some(""))
    else if IsControl(c) then Obey(s, c, cols)
    else if s.sequence.Some? then
      var sequence := s.sequence.value + [c];
      if IsWhole(sequence) then Perform(s, sequence, cols) else s.(sequence := Some(sequence))
    else if s.col + cells(c) > cols then Cursor(s.row + 1, cells(c), None)
    else s.(col := s.col + cells(c))
  }

  function PutFrom(start: Cursor, data: string, cols: nat, cells: char -> nat): Cursor
    requires cols > 0
  {
    if data == "" then start
    else Put(PutFrom(start, data[..|data| - 1], cols, cells), data[|data| - 1], cols, cells)
  }

  const TOP := Cursor(1, 0, None)

  function PutAll(data: string, cols: nat, cells: char -> nat): Cursor
    requires cols > 0
  {
    PutFrom(TOP, data, cols, cells)
  }

  predicate AtMostDouble(cells: char -> nat) {
    forall c :: cells(c) <= 2
  }

  // ---- Plain text ------------------------------------------------------------------

  /** Characters that mean to the terminal what the count takes them for, or less. */
  predicate IsPlainChar(c: char) {
    !IsControl(c) || (c < ' ' && c !in {TAB, VERTICAL_TAB, FORM_FEED, ESCAPE})
  }

  /** Escape sequences for styles, erasing in the line, and the usual character set. */
  predicate GoesOnPlainly(sequence: string, c: char) {
    if sequence == "" then c == '[' || c == '('
    else if sequence == "(" then c == 'B'
    else sequence[0] == '[' && ('0' <= c <= ';' || c == 'm' || c == 'K')
  }

  /** What is plain behind a text that ends in this part of an escape sequence. */
  predicate PlainBehind(sequence: Option<string>, c: char) {
    match sequence
    case None => c == ESCAPE || IsPlainChar(c)
    case Some(begun) => GoesOnPlainly(begun, c)
  }

  /** The escape sequence the text ends in the middle of. */
  function Unfinished(data: string): Option<string> {
    if data == "" then None
    else
      var c := data[|data| - 1];
      match Unfinished(data[..|data| - 1])
      case None => if c == ESCAPE then Some("") else None
      case Some(begun) => if IsWhole(begun + [c]) then None else Some(begun + [c])
  }

  /** Newlines, printable characters, controls that move the cursor back or not at all, and escape sequences that
      do not move it. */
  predicate Plain(data: string) {
    data == "" ||
    (Plain(data[..|data| - 1]) && PlainBehind(Unfinished(data[..|data| - 1]), data[|data| - 1]))
  }

  // ---- An even number of columns -----------------------------------------------------

  /** The lines are counted from the row `base`, on which the text began; `first` says it is still there. */
  datatype Place = Place(first: bool, down: nat, last: nat)

  /**
   On the first row nothing is known of the cells taken before.  On any later one the cursor
   has moved on at most `down` rows since the line began, each of them filled, and at most
   `last` characters stand on its own.
   */
  ghost predicate Covered(count: Count, cursor: Cursor, base: nat, half: nat, place: Place) {
    if place.first then cursor.row < base + count.rows
    else
      && cursor.row <= base + count.rows + place.down
      && cursor.col <= 2 * place.last
      && half * place.down + place.last <= count.width
      && (place.down > 0 ==> place.last > 0)
  }

  lemma RowsOfCovered(width: nat, half: nat, down: nat, last: nat)
    requires half > 0 && half * down + last <= width && (down > 0 ==> last > 0)
    ensures down + 1 <= Max(LineRows(width, 2 * half), 1)
    ensures last > 0 ==> down + 1 <= LineRows(width, 2 * half)
  {
    if last > 0 {
      var cols := 2 * half;
      assert 2 * width + cols - 1 >= cols * (down + 1) by {
        assert cols * (down + 1) == 2 * (half * down) + cols;
      }
      DivAtLeast(2 * width + cols - 1, cols, down + 1);
    }
  }

  lemma {:induction false} TimesGrows(d: nat, a: nat, b: nat)
    requires a <= b
    ensures d * a <= d * b
  {
    if a < b {
      TimesGrows(d, a, b - 1);
      assert d * b == d * (b - 1) + d;
    }
  }

  lemma Quotient(n: nat, d: nat)
    requires d > 0
    ensures d * (n / d) <= n < d * (n / d + 1)
  {
    assert n == d * (n / d) + n % d;
    assert d * (n / d + 1) == d * (n / d) + d;
  }

  lemma DivAtLeast(n: nat, d: nat, q: nat)
    requires d > 0 && n >= d * q
    ensures n / d >= q
  {
    if n / d < q {
      TimesGrows(d, n / d + 1, q);
      Quotient(n, d);
    }
  }

  lemma DivBelow(n: nat, d: nat, q: nat)
    requires d > 0 && n < d * q
    ensures n / d < q
  {
    if q <= n / d {
      TimesGrows(d, q, n / d);
      Quotient(n, d);
    }
  }

  /** Inside a plain escape sequence the count and the terminal agree on where it ends. */
  lemma {:induction false} SequencesAgree(start: Cursor, data: string, cols: nat, cells: char -> nat)
    requires cols > 0 && Plain(data) && start.sequence == None
    ensures PutFrom(start, data, cols, cells).sequence == Unfinished(data)
    ensures CountAll(data, cols).escaped <==> Unfinished(data).Some?
  {
    if data != "" {
      SequencesAgree(start, data[..|data| - 1], cols, cells);
    }
  }

  /** One more plain character. */
  lemma PlainStep(count: Count, cursor: Cursor, c: char, base: nat, half: nat, cells: char -> nat, place: Place)
    returns (next: Place)
    requires half > 0 && AtMostDouble(cells) && Covered(count, cursor, base, half, place)
    requires PlainBehind(cursor.sequence, c) && (count.escaped <==> cursor.sequence.Some?)
    ensures Covered(CountChar(count, c, 2 * half), Put(cursor, c, 2 * half, cells), base, half, next)
  {
    next := place;
    if c == ESCAPE || count.escaped {
    } else if c == NEWLINE {
      if !place.first {
        RowsOfCovered(count.width, half, place.down, place.last);
      }
      next := Place(false, 0, 0);
    } else if IsControl(c) {
    } else if cursor.col + cells(c) > 2 * half {
      next := if place.first then Place(false, 0, 1) else Place(false, place.down + 1, 1);
      if !place.first {
        assert half <= place.last;
        assert half * (place.down + 1) == half * place.down + half;
      }
    } else if !place.first {
      next := place.(last := place.last + 1);
    }
  }

  lemma {:induction false} TextIsCovered(start: Cursor, data: string, base: nat, half: nat, cells: char -> nat,
                                         begin: Place)
    returns (place: Place)
    requires half > 0 && AtMostDouble(cells) && Plain(data) && start.sequence == None
    requires Covered(Count(1, 0, false), start, base, half, begin)
    ensures Covered(CountAll(data, 2 * half), PutFrom(start, data, 2 * half, cells), base, half, place)
  {
    place := begin;
    if data != "" {
      var front, c := data[..|data| - 1], data[|data| - 1];
      place := TextIsCovered(start, front, base, half, cells, begin);
      SequencesAgree(start, front, 2 * half, cells);
      var cursor := PutFrom(start, front, 2 * half, cells);
      place := PlainStep(CountAll(front, 2 * half), cursor, c, base, half, cells, place);
    }
  }

  lemma RowsCovered(count: Count, cursor: Cursor, base: nat, half: nat, place: Place)
    requires half > 0 && Covered(count, cursor, base, half, place)
    ensures cursor.row <= base + count.rows + LineRows(count.width, 2 * half)
  {
    if !place.first {
      RowsOfCovered(count.width, half, place.down, place.last);
    }
  }

  /** With an even number of columns a plain text never takes more rows than are reserved for it. */
  lemma ReservedIsEnough(data: string, half: nat, cells: char -> nat)
    requires half > 0 && AtMostDouble(cells) && Plain(data)
    ensures PutAll(data, 2 * half, cells).row <= Reserved(data, 2 * half)
  {
    var place := TextIsCovered(TOP, data, 0, half, cells, Place(false, 0, 0));
    RowsCovered(CountAll(data, 2 * half), PutAll(data, 2 * half, cells), 0, half, place);
  }

  /** Nor does it run off a terminal that had `rows` rows before they were added, wherever on these it goes on. */
  lemma PushFits(rows: nat, start: Cursor, data: string, half: nat, cells: char -> nat)
    requires half > 0 && AtMostDouble(cells) && Plain(data) && start.row <= rows && start.sequence == None
    ensures PutFrom(start, data, 2 * half, cells).row <= rows + Reserved(data, 2 * half)
  {
    var place := TextIsCovered(start, data, rows, half, cells, Place(true, 0, 0));
    RowsCovered(CountAll(data, 2 * half), PutFrom(start, data, 2 * half, cells), rows, half, place);
  }

  // ---- An odd number of columns ---------------------------------------------------------

  function Times(block: string, n: nat): string {
    if n == 0 then "" else Times(block, n - 1) + block
  }

  lemma OneMore(front: string, c: char, cols: nat, cells: char -> nat)
    requires cols > 0
    ensures CountAll(front + [c], cols) == CountChar(CountAll(front, cols), c, cols)
    ensures PutAll(front + [c], cols, cells) == Put(PutAll(front, cols, cells), c, cols, cells)
    ensures Plain(front + [c]) <==> Plain(front) && PlainBehind(Unfinished(front), c)
  {
    assert (front + [c])[..|front|] == front;
  }

  lemma {:induction false} CountOfLetters(n: nat, cols: nat)
    requires cols > 0
    ensures CountAll(Times("x", n), cols) == Count(1, n, false)
  {
    if n > 0 {
      CountOfLetters(n - 1, cols);
      OneMore(Times("x", n - 1), 'x', cols, c => 0);
    }
  }

  lemma OneMoreLetter(front: string)
    requires Plain(front) && Unfinished(front) == None
    ensures Plain(front + "x") && Unfinished(front + "x") == None
  {
    assert (front + "x")[..|front|] == front;
    assert PlainBehind(None, 'x');
  }

  lemma {:induction false} LettersArePlain(n: nat)
    ensures Plain(Times("x", n)) && Unfinished(Times("x", n)) == None
  {
    if n > 0 {
      var front := Times("x", n - 1);
      LettersArePlain(n - 1);
      OneMoreLetter(front);
    }
  }

  const WIDE: char -> nat := c => 2

  lemma OneMoreWide(n: nat, cols: nat, s: Cursor)
    requires n > 0 && cols >= 3 && s.sequence == None && PutAll(Times("x", n - 1), cols, WIDE) == s
    ensures PutAll(Times("x", n), cols, WIDE) ==
            if s.col + 2 > cols then Cursor(s.row + 1, 2, None) else Cursor(s.row, s.col + 2, None)
  {
    OneMore(Times("x", n - 1), 'x', cols, WIDE);
  }

  /** Wide characters on 2m + 1 columns: up to m of them on a row begun behind the first n. */
  lemma {:induction false} WideRow(m: nat, n: nat, row: nat, rest: nat)
    requires 1 <= rest <= m && row > 0
    requires if n == 0 then row == 1 else PutAll(Times("x", n), 2 * m + 1, WIDE) == Cursor(row - 1, 2 * m, None)
    ensures PutAll(Times("x", n + rest), 2 * m + 1, WIDE) == Cursor(row, 2 * rest, None)
  {
    if rest > 1 {
      WideRow(m, n, row, rest - 1);
      OneMoreWide(n + rest, 2 * m + 1, Cursor(row, 2 * rest - 2, None));
    } else if n == 0 {
      assert Times("x", 0) == "";
      OneMoreWide(1, 2 * m + 1, TOP);
    } else {
      OneMoreWide(n + 1, 2 * m + 1, Cursor(row - 1, 2 * m, None));
    }
  }

  lemma {:induction false} WideRows(m: nat, rows: nat)
    requires m > 0 && rows > 0
    ensures PutAll(Times("x", rows * m), 2 * m + 1, WIDE) == Cursor(rows, 2 * m, None)
  {
    if rows > 1 {
      WideRows(m, rows - 1);
    }
    WideRow(m, (rows - 1) * m, rows, m);
    assert (rows - 1) * m + m == rows * m;
  }

  lemma ReservedForWide(m: nat, t: nat)
    ensures LineRows(t * m * (2 * m + 1), 2 * m + 1) == 2 * m * t
  {
    var cols := 2 * m + 1;
    assert 2 * (t * m * cols) == (2 * m * t) * cols;
    DivExact(2 * m * t, cols);
  }

  lemma DivExact(q: nat, d: nat)
    requires d > 0
    ensures (q * d + d - 1) / d == q
  {
    DivAtLeast(q * d + d - 1, d, q);
    DivBelow(q * d + d - 1, d, q + 1);
  }

  lemma WideText(m: nat, t: nat) returns (data: string)
    requires m > 0 && t > 0
    ensures Plain(data)
    ensures PutAll(data, 2 * m + 1, WIDE).row == 2 * m * t + t && Reserved(data, 2 * m + 1) == 1 + 2 * m * t
  {
    var rows := 2 * m * t + t;
    data := Times("x", rows * m);
    assert rows * m == t * m * (2 * m + 1);
    LettersArePlain(rows * m);
    WideRows(m, rows);
    CountOfLetters(rows * m, 2 * m + 1);
    ReservedForWide(m, t);
  }

  /** So many rows of wide characters that no `extra` rows beside the reserved ones are enough. */
  lemma OddOverflows(m: nat, extra: nat) returns (data: string)
    requires m > 0
    ensures Plain(data) && PutAll(data, 2 * m + 1, WIDE).row > extra + Reserved(data, 2 * m + 1)
  {
    data := WideText(m, extra + 2);
  }

  ghost predicate AlwaysEnough(cols: nat)
    requires cols > 0
  {
    forall data: string, cells: char -> nat :: Plain(data) && AtMostDouble(cells) ==>
      PutAll(data, cols, cells).row <= Reserved(data, cols)
  }

  /** On a terminal of `rows` rows, adding the reserved ones leaves room for what is written next. */
  ghost predicate AlwaysFits(rows: nat, cols: nat)
    requires cols > 0
  {
    forall start: Cursor, data: string, cells: char -> nat ::
      start.row <= rows && start.sequence == None && Plain(data) && AtMostDouble(cells) ==>
        PutFrom(start, data, cols, cells).row <= rows + Reserved(data, cols)
  }

  /** The reserved rows are enough for every plain text and every character width up to two exactly when the
      number of columns is even. */
  lemma EnoughIffEven(cols: nat)
    requires cols >= 2
    ensures AlwaysEnough(cols) <==> cols % 2 == 0
  {
    if cols % 2 == 0 {
      forall data: string, cells: char -> nat | Plain(data) && AtMostDouble(cells)
        ensures PutAll(data, cols, cells).row <= Reserved(data, cols)
      {
        assert cols == 2 * (cols / 2);
        ReservedIsEnough(data, cols / 2, cells);
      }
    } else {
      var data := OddOverflows(cols / 2, 0);
      assert AtMostDouble(WIDE);
    }
  }

  /** And they make room for any write, on a terminal of any height and from any place on it, just then too. */
  lemma FitsIffEven(rows: nat, cols: nat)
    requires cols >= 2 && rows >= 1
    ensures AlwaysFits(rows, cols) <==> cols % 2 == 0
  {
    if cols % 2 == 0 {
      forall start: Cursor, data: string, cells: char -> nat
        | start.row <= rows && start.sequence == None && Plain(data) && AtMostDouble(cells)
        ensures PutFrom(start, data, cols, cells).row <= rows + Reserved(data, cols)
      {
        assert cols == 2 * (cols / 2);
        PushFits(rows, start, data, cols / 2, cells);
      }
    } else {
      var data := OddOverflows(cols / 2, rows);
      assert AtMostDouble(WIDE) && PutAll(data, cols, WIDE) == PutFrom(TOP, data, cols, WIDE);
    }
  }

  // ---- Texts that are not plain ---------------------------------------------------------

  /** Line feeds that are counted as characters. */
  lemma {:induction false} UncountedFeeds(c: char, n: nat, cols: nat, cells: char -> nat)
    requires cols > 0 && c in {VERTICAL_TAB, FORM_FEED, INDEX, NEXT_LINE}
    ensures CountAll(Times([c], n), cols) == Count(1, n, false)
    ensures PutAll(Times([c], n), cols, cells) == Cursor(n + 1, 0, None)
  {
    if n > 0 {
      UncountedFeeds(c, n - 1, cols, cells);
      OneMore(Times([c], n - 1), c, cols, cells);
    }
  }

  /** Enough of them, on three or more columns, take more rows than any number beside the reserved ones. */
  lemma FeedsOverflow(c: char, cols: nat, cells: char -> nat, extra: nat) returns (data: string)
    requires cols >= 3 && c in {VERTICAL_TAB, FORM_FEED, INDEX, NEXT_LINE}
    ensures PutAll(data, cols, cells).row > extra + Reserved(data, cols)
  {
    var n := 3 * (extra + 1);
    data := Times([c], n);
    UncountedFeeds(c, n, cols, cells);
    TimesGrows(2 * (extra + 1) + 1, 3, cols);
    DivBelow(2 * n + cols - 1, cols, 2 * (extra + 1) + 1);
  }

  /** Sequences that feed a line unseen: two that do so themselves, one with a newline in it, and one that ends
      before the count thinks so. */
  predicate FeedsUnseen(block: string) {
    block in {[ESCAPE, 'D'], [ESCAPE, 'E'], [ESCAPE, NEWLINE, 'm'], [ESCAPE, '7', NEWLINE]}
  }

  lemma OneMoreUnseen(front: string, block: string, cols: nat, cells: char -> nat)
    requires cols > 0 && FeedsUnseen(block)
    requires PutAll(front, cols, cells).sequence == None && PutAll(front, cols, cells).col == 0
    ensures CountAll(front + block, cols).(escaped := false) == CountAll(front, cols).(escaped := false)
    ensures PutAll(front + block, cols, cells) == Cursor(PutAll(front, cols, cells).row + 1, 0, None)
  {
    var begun := front + [ESCAPE];
    OneMore(front, ESCAPE, cols, cells);
    OneMore(begun, block[1], cols, cells);
    if |block| == 2 {
      assert front + block == begun + [block[1]];
    } else {
      OneMore(begun + [block[1]], block[2], cols, cells);
      assert front + block == begun + [block[1]] + [block[2]];
    }
  }

  /** For these nothing at all is reserved, on any number of columns. */
  lemma {:induction false} UnseenOverflows(block: string, n: nat, cols: nat, cells: char -> nat)
    requires cols > 0 && FeedsUnseen(block)
    ensures PutAll(Times(block, n), cols, cells) == Cursor(n + 1, 0, None)
    ensures Reserved(Times(block, n), cols) == 1
    ensures CountAll(Times(block, n), cols).(escaped := false) == Count(1, 0, false)
  {
    if n > 0 {
      UnseenOverflows(block, n - 1, cols, cells);
      OneMoreUnseen(Times(block, n - 1), block, cols, cells);
    }
    NoRows(cols);
  }

  lemma NoRows(cols: nat)
    requires cols > 0
    ensures LineRows(0, cols) == 0
  {
    DivBelow(cols - 1, cols, 1);
  }

  lemma OneMoreTab(front: string, cols: nat, cells: char -> nat)
    requires cols > 0 && !CountAll(front, cols).escaped && PutAll(front, cols, cells).col < cols
    ensures var count := CountAll(front, cols);
            CountAll(front + [TAB], cols) == count.(width := count.width + 1)
    ensures var s := PutAll(front, cols, cells);
            PutAll(front + [TAB], cols, cells) == s.(col := Min((s.col / TAB_WIDTH + 1) * TAB_WIDTH, cols - 1))
  {
    OneMore(front, TAB, cols, cells);
  }

  lemma NextStop(j: nat, col: nat, cols: nat)
    requires cols >= 3 && (if j == 0 then col in {0, 2} else col == Min(TAB_WIDTH * j, cols - 1))
    ensures Min((col / TAB_WIDTH + 1) * TAB_WIDTH, cols - 1) == Min(TAB_WIDTH * (j + 1), cols - 1)
  {
  }

  /** Tabs behind a character of two cells. */
  lemma {:induction false} TabsGo(front: string, j: nat, cols: nat, cells: char -> nat)
    requires cols >= 3
    requires PutAll(front, cols, cells).sequence == None && PutAll(front, cols, cells).col in {0, 2}
    requires !CountAll(front, cols).escaped
    ensures var count := CountAll(front, cols);
            CountAll(front + Times([TAB], j), cols) == count.(width := count.width + j)
    ensures var s := PutAll(front, cols, cells);
            PutAll(front + Times([TAB], j), cols, cells) ==
            s.(col := if j == 0 then s.col else Min(TAB_WIDTH * j, cols - 1))
  {
    if j == 0 {
      assert front + Times([TAB], 0) == front;
    } else {
      TabsGo(front, j - 1, cols, cells);
      NextStop(j - 1, PutAll(front + Times([TAB], j - 1), cols, cells).col, cols);
      OneMoreTab(front + Times([TAB], j - 1), cols, cells);
      assert front + Times([TAB], j) == front + Times([TAB], j - 1) + [TAB];
    }
  }

  /** A wide character and as many tabs as a row has room for. */
  function TabbedRow(cols: nat): string {
    Times([TAB], cols / TAB_WIDTH + 1) + "x"
  }

  lemma TabsFill(k: nat, cols: nat)
    requires k == cols / TAB_WIDTH + 1
    ensures cols == 0 || Min(TAB_WIDTH * k, cols - 1) == cols - 1
  {
  }

  lemma WideFitsNot(front: string, cols: nat, cells: char -> nat)
    requires cols > 0 && cells('x') == 2 && !CountAll(front, cols).escaped
    requires PutAll(front, cols, cells).sequence == None && PutAll(front, cols, cells).col == cols - 1
    ensures var count := CountAll(front, cols);
            CountAll(front + ['x'], cols) == count.(width := count.width + 1)
    ensures PutAll(front + ['x'], cols, cells) == Cursor(PutAll(front, cols, cells).row + 1, 2, None)
  {
    OneMore(front, 'x', cols, cells);
  }

  lemma RowOfTabs(front: string, cols: nat, cells: char -> nat) returns (tabbed: string)
    requires cols >= 3
    requires PutAll(front, cols, cells).sequence == None && PutAll(front, cols, cells).col in {0, 2}
    requires !CountAll(front, cols).escaped
    ensures front + TabbedRow(cols) == tabbed + ['x']
    ensures var count := CountAll(front, cols);
            CountAll(tabbed, cols) == count.(width := count.width + cols / TAB_WIDTH + 1)
    ensures PutAll(tabbed, cols, cells) == PutAll(front, cols, cells).(col := cols - 1)
  {
    var k := cols / TAB_WIDTH + 1;
    tabbed := front + Times([TAB], k);
    TabsFill(k, cols);
    TabsGo(front, k, cols, cells);
  }

  lemma OneTabbedRow(front: string, cols: nat, cells: char -> nat)
    requires cols >= 3 && cells('x') == 2
    requires PutAll(front, cols, cells).sequence == None && PutAll(front, cols, cells).col in {0, 2}
    requires !CountAll(front, cols).escaped
    ensures var count := CountAll(front, cols);
            CountAll(front + TabbedRow(cols), cols) == count.(width := count.width + cols / TAB_WIDTH + 2)
    ensures PutAll(front + TabbedRow(cols), cols, cells) == Cursor(PutAll(front, cols, cells).row + 1, 2, None)
  {
    var tabbed := RowOfTabs(front, cols, cells);
    WideFitsNot(tabbed, cols, cells);
  }

  lemma {:induction false} TabbedRows(n: nat, cols: nat)
    requires cols >= 3
    ensures CountAll(Times(TabbedRow(cols), n), cols) == Count(1, n * (cols / TAB_WIDTH + 2), false)
    ensures PutAll(Times(TabbedRow(cols), n), cols, WIDE) == Cursor(n + 1, if n == 0 then 0 else 2, None)
  {
    if n > 0 {
      var k := cols / TAB_WIDTH + 2;
      TabbedRows(n - 1, cols);
      OneTabbedRow(Times(TabbedRow(cols), n - 1), cols, WIDE);
      assert n * k == (n - 1) * k + k;
    }
  }

  /** On six or more columns tabs take more rows than any number beside the reserved ones. */
  lemma TabsOverflow(cols: nat, extra: nat) returns (data: string)
    requires cols >= 6
    ensures PutAll(data, cols, WIDE).row > extra + Reserved(data, cols)
  {
    var n, k := cols * (extra + 1), cols / TAB_WIDTH + 2;
    data := Times(TabbedRow(cols), n);
    TabbedRows(n, cols);
    assert 2 * k <= cols - 1;
    FewerRows(extra + 1, k, cols);
  }

  lemma FewerRows(e: nat, k: nat, cols: nat)
    requires 2 * k <= cols - 1
    ensures LineRows(cols * e * k, cols) <= (cols - 1) * e
  {
    TimesGrows(cols * e, 2 * k, cols - 1);
    assert 2 * (cols * e * k) == cols * e * (2 * k);
    assert cols * e * (cols - 1) == cols * ((cols - 1) * e);
    var q := (cols - 1) * e;
    assert cols * (q + 1) == cols * q + cols;
    DivBelow(2 * (cols * e * k) + cols - 1, cols, q + 1);
  }

  // ---- Held-back newlines --------------------------------------------------------------

  predicate AllNewlines(s: string) {
    forall i :: 0 <= i < |s| ==> s[i] == NEWLINE
  }

  predicate EndsInNewline(s: string) {
    s != "" && s[|s| - 1] == NEWLINE
  }

  /** The text without its trailing newlines. */
  function Body(s: string): (body: string)
    ensures body <= s && AllNewlines(s[|body|..]) && !EndsInNewline(body)
  {
    if EndsInNewline(s) then
      var body := Body(s[..|s| - 1]);
      assert s[|body|..] == s[..|s| - 1][|body|..] + [NEWLINE];
      body
    else s
  }

  lemma {:induction false} BodyOfNewlines(s: string)
    requires AllNewlines(s)
    ensures Body(s) == ""
  {
    if s != "" {
      BodyOfNewlines(s[..|s| - 1]);
    }
  }

  class OutputBlock {
    var trailingNewlines: string
    var content: string

    constructor ()
      ensures Valid() && content == trailingNewlines == ""
    {
      trailingNewlines, content := "", "";
    }

    /** What is shown never ends in a newline; only newlines are held back. */
    ghost predicate Valid()
      reads this
    {
      AllNewlines(trailingNewlines) && !EndsInNewline(content)
    }

    method Write(data: string)
      requires Valid()
      modifies this
      ensures Valid()
      ensures content + trailingNewlines == old(content + trailingNewlines) + data
      ensures old(content) <= content
      ensures AllNewlines(data) ==> content == old(content)
    {
      var buffered := trailingNewlines + data;
      var body := Body(buffered);
      if AllNewlines(data) {
        BodyOfNewlines(buffered);
      }
      trailingNewlines := buffered[|body|..];
      assert body + trailingNewlines == buffered;
      if body == "" {
        return;
      }
      content := content + body;
    }

    /** Nothing is lost over any number of writes. */
    method WriteAll(pieces: seq<string>)
      requires Valid()
      modifies this
      ensures Valid()
      ensures content + trailingNewlines == old(content + trailingNewlines) + Joined(pieces)
    {
      for i := 0 to |pieces|
        invariant Valid()
        invariant content + trailingNewlines == old(content + trailingNewlines) + Joined(pieces[..i])
      {
        assert pieces[..i + 1][..i] == pieces[..i];
        Write(pieces[i]);
      }
      assert pieces[..|pieces|] == pieces;
    }
  }

  function Joined(pieces: seq<string>): string {
    if pieces == [] then "" else Joined(pieces[..|pieces| - 1]) + pieces[|pieces| - 1]
  }
}
