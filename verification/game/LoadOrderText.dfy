/** The lines of the load order's text table, and reading them back. */
module LoadOrderText {
  import opened Numerals

  /** A line of the text table: the column that the index stands in, the index, and the plugin. */
  datatype TableRow =
    | LightRow(index: nat, name: string)
    | MediumRow(index: nat, name: string)
    | FullRow(index: nat, name: string)
    | BlankRow(name: string)

  const LIGHT := "254 FE "
  const MEDIUM := "253 FD "
  const BLANK := "           "
  const NEWLINE := "\r\n"

  /** The text with spaces put before it, if it is shorter than the width. */
  function Padded(s: string, width: nat): (r: string) {
    if |s| >= width then s else [' '] + Padded(s, width - 1)
  }

  function LineOf(row: TableRow): string {
    match row
    case LightRow(index, name) => LIGHT + (Padded(Digits(index, Hexadecimal), 3) + " " + name) + NEWLINE
    case MediumRow(index, name) => MEDIUM + (Padded(Digits(index, Hexadecimal), 2) + " " + name) + NEWLINE
    case FullRow(index, name) =>
      Padded(Digits(index, Decimal), 3) + " " +
      (Padded(Digits(index, Hexadecimal), 2) + " " + ("    " + name)) + NEWLINE
    case BlankRow(name) => BLANK + name + NEWLINE
  }

  /** The lines one after another. */
  function Concat(lines: seq<string>): string {
    if lines == [] then "" else Concat(lines[..|lines| - 1]) + lines[|lines| - 1]
  }

  /** Lines are put one after another in their order. */
  lemma {:induction false} ConcatKeepsOrder(lines: seq<string>, more: seq<string>)
    ensures Concat(lines + more) == Concat(lines) + Concat(more)
    ensures forall line: string :: Concat([line]) == line
    decreases |more|
  {
    forall line: string ensures Concat([line]) == line {
      assert [line][..0] == [];
    }
    if more == [] {
      assert lines + more == lines;
    } else {
      var front := more[..|more| - 1];
      assert (lines + more)[..|lines + more| - 1] == lines + front;
      ConcatKeepsOrder(lines, front);
    }
  }

  // --- Reading --------------------------------------------------------------------------

  function WithoutSpaces(s: string): string {
    if s != [] && s[0] == ' ' then WithoutSpaces(s[1..]) else s
  }

  /** The part before the first space, and the part after that space. */
  function SplitAtSpace(s: string): (string, string) {
    if s == [] then ("", "")
    else if s[0] == ' ' then ("", s[1..])
    else var rest := SplitAtSpace(s[1..]); ([s[0]] + rest.0, rest.1)
  }

  /** A number and what comes after it and a space. */
  function ReadNumber(s: string, base: Base): (nat, string) {
    var parts := SplitAtSpace(WithoutSpaces(s));
    (Value(parts.0, base), parts.1)
  }

  /** What a line of the table says, if it is one. */
  function ReadLine(line: string): TableRow {
    var s := if |line| >= 2 then line[..|line| - 2] else line;
    if LIGHT <= s then
      var number := ReadNumber(s[|LIGHT|..], Hexadecimal);
      LightRow(number.0, number.1)
    else if MEDIUM <= s then
      var number := ReadNumber(s[|MEDIUM|..], Hexadecimal);
      MediumRow(number.0, number.1)
    else if BLANK <= s then
      BlankRow(s[|BLANK|..])
    else
      var decimal := ReadNumber(s, Decimal);
      var rest := ReadNumber(decimal.1, Hexadecimal).1;
      FullRow(decimal.0, if |rest| >= 4 then rest[4..] else rest)
  }

  lemma {:induction false} PaddingIsSkipped(s: string, width: nat, rest: string)
    requires s != [] && s[0] != ' '
    ensures WithoutSpaces(Padded(s, width) + rest) == s + rest
    decreases width
  {
    if |s| < width {
      assert (Padded(s, width) + rest)[1..] == Padded(s, width - 1) + rest;
      PaddingIsSkipped(s, width - 1, rest);
    }
  }

  lemma {:induction false} WordIsSplitOff(s: string, rest: string)
    requires forall c :: c in s ==> c != ' '
    ensures SplitAtSpace(s + " " + rest) == (s, rest)
    decreases |s|
  {
    if s == [] {
      assert s + " " + rest == " " + rest && (" " + rest)[1..] == rest;
    } else {
      assert s[0] in s && s == [s[0]] + s[1..] && forall c :: c in s[1..] ==> c in s;
      assert (s + " " + rest)[1..] == s[1..] + " " + rest;
      WordIsSplitOff(s[1..], rest);
    }
  }

  lemma NumberReadsBack(n: nat, base: Base, width: nat, rest: string)
    ensures ReadNumber(Padded(Digits(n, base), width) + " " + rest, base) == (n, rest)
  {
    var s := Digits(n, base);
    assert s[0] in s;
    assert Padded(s, width) + " " + rest == Padded(s, width) + (" " + rest);
    assert s + " " + rest == s + (" " + rest);
    PaddingIsSkipped(s, width, " " + rest);
    WordIsSplitOff(s, rest);
    DigitsReadBack(n, base);
  }

  lemma {:induction false} PaddedEnds(s: string, width: nat)
    requires s != []
    ensures |Padded(s, width)| == (if |s| >= width then |s| else width)
    ensures forall c :: c in Padded(s, width) ==> c == ' ' || c in s
    ensures Padded(s, width)[|Padded(s, width)| - 1] == s[|s| - 1]
    ensures |s| >= width ==> Padded(s, width) == s
    decreases width
  {
    if |s| < width {
      PaddedEnds(s, width - 1);
    }
  }

  /** Only spaces are put before a text. */
  lemma {:induction false} PaddingIsSpaces(s: string, width: nat)
    ensures |Padded(s, width)| == if |s| >= width then |s| else width
    ensures forall i :: 0 <= i < |Padded(s, width)| - |s| ==> Padded(s, width)[i] == ' '
    ensures Padded(s, width)[|Padded(s, width)| - |s|..] == s
    decreases width
  {
    if |s| < width {
      PaddingIsSpaces(s, width - 1);
      assert Padded(s, width)[1..] == Padded(s, width - 1);
    }
  }

  /** The line of a full plugin looks like no other kind of line. */
  lemma FullStandsOut(index: nat, rest: string)
    ensures var s := Padded(Digits(index, Decimal), 3) + " " + (Padded(Digits(index, Hexadecimal), 2) + " " + rest);
            !(LIGHT <= s) && !(MEDIUM <= s) && !(BLANK <= s)
  {
    hide Digits, Padded;
    var decimal, hexadecimal := Digits(index, Decimal), Digits(index, Hexadecimal);
    PaddedEnds(decimal, 3);
    PaddedEnds(hexadecimal, 2);
    var d, h := Padded(decimal, 3), Padded(hexadecimal, 2);
    var s := d + " " + (h + " " + rest);
    assert IsDigit(s[|d| - 1]) by {
      assert s[|d| - 1] == decimal[|decimal| - 1] && decimal[|decimal| - 1] in decimal;
    }
    if |d| == 3 {
      assert s[4] == h[0] && h[0] in h;
    } else {
      assert s[3] == decimal[3] && decimal[3] in decimal && s[0] == decimal[0] && decimal[0] in decimal;
    }
    NoPrefix(s);
  }

  lemma NoPrefix(s: string)
    requires |s| > 4 && (s[4] != 'F' || s[3] != ' ') && (IsDigit(s[0]) || IsDigit(s[2]))
    ensures !(LIGHT <= s) && !(MEDIUM <= s) && !(BLANK <= s)
  {
    assert LIGHT[3] == MEDIUM[3] == BLANK[0] == BLANK[2] == ' ' && LIGHT[4] == MEDIUM[4] == 'F';
  }

  /** Every line of the table tells the kind of plugin, its index and its name. */
  lemma LineReadsBack(row: TableRow)
    ensures ReadLine(LineOf(row)) == row
  {
    var line := LineOf(row);
    match row
    case LightRow(index, name) =>
      var rest := Padded(Digits(index, Hexadecimal), 3) + " " + name;
      assert line[..|line| - 2] == LIGHT + rest && (LIGHT + rest)[|LIGHT|..] == rest;
      NumberReadsBack(index, Hexadecimal, 3, name);
    case MediumRow(index, name) =>
      var rest := Padded(Digits(index, Hexadecimal), 2) + " " + name;
      assert line[..|line| - 2] == MEDIUM + rest && (MEDIUM + rest)[|MEDIUM|..] == rest;
      assert MEDIUM[2] != LIGHT[2];
      NumberReadsBack(index, Hexadecimal, 2, name);
    case FullRow(index, name) =>
      var rest := Padded(Digits(index, Hexadecimal), 2) + " " + ("    " + name);
      assert line[..|line| - 2] == Padded(Digits(index, Decimal), 3) + " " + rest;
      FullStandsOut(index, "    " + name);
      NumberReadsBack(index, Decimal, 3, rest);
      NumberReadsBack(index, Hexadecimal, 2, "    " + name);
      assert ("    " + name)[4..] == name;
    case BlankRow(name) =>
      assert line[..|line| - 2] == BLANK + name && (BLANK + name)[|BLANK|..] == name;
      assert BLANK[0] != LIGHT[0] && BLANK[0] != MEDIUM[0];
  }
}
