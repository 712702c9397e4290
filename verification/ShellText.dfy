/** Lines of text as the shell's stdout scanner sees them, and the numbers on its marker lines. */
module ShellText {
  import opened Characters
  import opened Options

  // One scanned line, without its newline, is shorter than this.
  const LINE_LIMIT: nat := 1024 * 1024

  function DropCR(line: string): string {
    if line != "" && line[|line| - 1] == '\r' then line[..|line| - 1] else line
  }

  /** Where the first newline is; the length if there is none. */
  function LineEnd(text: string): (i: nat)
    ensures i <= |text|
    ensures i < |text| ==> text[i] == NEWLINE
    ensures forall j :: 0 <= j < i ==> text[j] != NEWLINE
  {
    if text == "" || text[0] == NEWLINE then 0 else 1 + LineEnd(text[1..])
  }

  datatype Scanned = Line(line: string, rest: string) | TooLong | EndOfText

  /** One call of the scanner on everything bash has written, and will write, that is still unread. */
  function Scan(unread: string): Scanned {
    var i := LineEnd(unread);
    if i >= LINE_LIMIT then TooLong
    else if i < |unread| then Line(DropCR(unread[..i]), unread[i + 1..])
    else if unread != "" then Line(DropCR(unread), "")
    else EndOfText
  }

  lemma ScanAdvances(unread: string)
    ensures Scan(unread).Line? ==> |Scan(unread).rest| < |unread|
  {
  }

  /** The newline-separated stretches of a text; always one more than there are newlines. */
  function SplitLines(text: string): (lines: seq<string>)
    ensures lines != []
  {
    if text == "" then [""]
    else
      var rest := SplitLines(text[1..]);
      if text[0] == NEWLINE then [""] + rest else [[text[0]] + rest[0]] + rest[1..]
  }

  /** Each stretch followed by a newline. */
  function Terminate(lines: seq<string>): string {
    if lines == [] then "" else lines[0] + [NEWLINE] + Terminate(lines[1..])
  }

  lemma {:induction false} TerminateOfSplit(text: string)
    ensures Terminate(SplitLines(text)) == text + [NEWLINE]
    ensures forall l <- SplitLines(text) :: NEWLINE !in l
  {
    if text == "" {
      assert Terminate([""]) == "" + [NEWLINE] + Terminate([]);
    } else {
      TerminateOfSplit(text[1..]);
      var rest := SplitLines(text[1..]);
      assert text == [text[0]] + text[1..];
      if text[0] == NEWLINE {
        assert ([""] + rest)[1..] == rest;
      } else {
        assert SplitLines(text)[1..] == rest[1..];
        var first := [text[0]] + rest[0];
        assert SplitLines(text) == [first] + rest[1..];
        assert Terminate(SplitLines(text)) == first + [NEWLINE] + Terminate(rest[1..]);
        assert Terminate(SplitLines(text)) == [text[0]] + Terminate(rest);
        assert NEWLINE !in rest[0];
        assert NEWLINE !in [text[0]] + rest[0];
      }
    }
  }

  lemma {:induction false} LineEndOfLine(line: string, rest: string)
    requires NEWLINE !in line
    ensures LineEnd(line + [NEWLINE] + rest) == |line|
  {
    var text := line + [NEWLINE] + rest;
    if line != "" {
      assert text[1..] == line[1..] + [NEWLINE] + rest;
      LineEndOfLine(line[1..], rest);
    }
  }

  lemma ScanOfLine(line: string, rest: string)
    requires NEWLINE !in line
    ensures Scan(line + [NEWLINE] + rest) == if |line| >= LINE_LIMIT then TooLong else Line(DropCR(line), rest)
    ensures |line| < LINE_LIMIT && (line == "" || line[|line| - 1] != '\r') ==>
              Scan(line + [NEWLINE] + rest) == Line(line, rest)
    ensures |line| < LINE_LIMIT && line != "" && line[|line| - 1] == '\r' ==>
              Scan(line + [NEWLINE] + rest) == Line(line[..|line| - 1], rest)
  {
    LineEndOfLine(line, rest);
    var text := line + [NEWLINE] + rest;
    assert text[..|line|] == line && text[|line| + 1..] == rest;
  }

  // ---- Numbers -------------------------------------------------------------------

  predicate IsDigit(c: char) {
    '0' <= c <= '9'
  }

  function DigitValue(c: char): nat
    requires IsDigit(c)
  {
    (c - '0') as nat
  }

  function Digit(n: nat): char
    requires n < 10
  {
    '0' + n as char
  }

  function Itoa(n: nat): string {
    if n < 10 then [Digit(n)] else Itoa(n / 10) + [Digit(n % 10)]
  }

  function DigitsValue(s: string): Option<nat> {
    if s == "" then Some(0)
    else
      var last := s[|s| - 1];
      match DigitsValue(s[..|s| - 1])
      case None => None
      case Some(n) => if IsDigit(last) then Some(10 * n + DigitValue(last)) else None
  }

  const INT_MAX: int := 0x7fff_ffff_ffff_ffff

  /** The Go conversion of a decimal number: an optional sign, at least one digit, within 64 bits. */
  function Atoi(s: string): Option<int> {
    var negative: bool := s != "" && s[0] == '-';
    var digits := if s != "" && (s[0] == '-' || s[0] == '+') then s[1..] else s;
    if digits == "" then None
    else match DigitsValue(digits)
      case None => None
      case Some(n) =>
        var value: int := if negative then -(n as int) else n as int;
        if -INT_MAX - 1 <= value <= INT_MAX then Some(value) else None
  }

  lemma {:induction false} DigitsOfItoa(n: nat)
    ensures Itoa(n) != "" && DigitsValue(Itoa(n)) == Some(n)
    ensures forall c <- Itoa(n) :: IsDigit(c)
  {
    if n < 10 {
      var s := Itoa(n);
      assert s[..0] == "" && DigitsValue("") == Some(0);
    } else {
      DigitsOfItoa(n / 10);
      var s := Itoa(n);
      assert s[..|s| - 1] == Itoa(n / 10);
    }
  }

  lemma AtoiOfItoa(n: nat)
    requires n <= INT_MAX
    ensures Atoi(Itoa(n)) == Some(n)
    ensures NEWLINE !in Itoa(n) && DropCR(Itoa(n)) == Itoa(n)
  {
    DigitsOfItoa(n);
    assert IsDigit(Itoa(n)[0]);
  }

  /** A sign in front is allowed, and a number beyond 64 bits is not. */
  lemma AtoiOfSigned(n: nat)
    ensures Atoi("+" + Itoa(n)) == Atoi(Itoa(n)) == if n <= INT_MAX then Some(n) else None
    ensures Atoi("-" + Itoa(n)) == if n <= INT_MAX + 1 then Some(-(n as int)) else None
  {
    DigitsOfItoa(n);
    assert IsDigit(Itoa(n)[0]);
    assert ("+" + Itoa(n))[1..] == Itoa(n) && ("-" + Itoa(n))[1..] == Itoa(n);
  }

  lemma {:induction false} ValueNeedsDigits(s: string)
    ensures DigitsValue(s).Some? <==> forall c <- s :: IsDigit(c)
  {
    if s != "" {
      ValueNeedsDigits(s[..|s| - 1]);
      assert s == s[..|s| - 1] + [s[|s| - 1]];
    }
  }

  /** Anything else than digits behind at most one sign is no number. */
  lemma AtoiNeedsDigits(s: string)
    requires Atoi(s).Some?
    ensures var digits := if s[0] == '-' || s[0] == '+' then s[1..] else s;
            digits != "" && forall c <- digits :: IsDigit(c)
  {
    ValueNeedsDigits(s);
    if s != "" {
      ValueNeedsDigits(s[1..]);
    }
  }
}
