/**
 Delimited text: the writer's quoting (fields may hold quotes, delimiters and line breaks, RFC 4180 section 2)
 and the reader's character automaton, which undo each other.
 */
module Delimited {
  import opened Basics

  type Text = seq<char>

  const QUOTE: char := '\"'

  // ---------- The reader ----------

  datatype Scanner = Scanner(rows: seq<seq<Text>>, row: seq<Text>, field: Text, quoted: bool, closed: bool)

  const START := Scanner([], [], [], false, false)

  datatype ScanError = UnexpectedQuote | CharactersAfterQuote | UnclosedQuote

  predicate AllEmpty(row: seq<Text>) {
    forall i :: 0 <= i < |row| ==> row[i] == []
  }

  /** A line end closes the row; a row of empty fields is dropped. */
  function EndRow(s: Scanner): Scanner {
    var row := s.row + [s.field];
    Scanner(if AllEmpty(row) then s.rows else s.rows + [row], [], [], false, false)
  }

  function EndField(s: Scanner, closed: bool): Scanner {
    s.(row := s.row + [s.field], field := [], closed := closed)
  }

  function Finish(s: Scanner): Result<seq<seq<Text>>, ScanError> {
    if s.quoted then Err(UnclosedQuote)
    else if s.field != [] || s.row != [] || s.closed then Ok(s.rows + [s.row + [s.field]])
    else Ok(s.rows)
  }

  /** What the reader makes of the rest of the text. */
  function Parse(s: Scanner, t: Text, delimiter: char): Result<seq<seq<Text>>, ScanError>
    decreases |t|
  {
    if t == [] then Finish(s)
    else
      var ch := t[0];
      var rest := t[1..];
      if s.quoted then
        if ch != QUOTE then Parse(s.(field := s.field + [ch]), rest, delimiter)
        else if rest != [] && rest[0] == QUOTE then Parse(s.(field := s.field + [QUOTE]), rest[1..], delimiter)
        else Parse(s.(quoted := false, closed := true), rest, delimiter)
      else if ch == QUOTE then
        if s.field == [] && !s.closed then Parse(s.(quoted := true), rest, delimiter) else Err(UnexpectedQuote)
      else if ch == delimiter then Parse(EndField(s, false), rest, delimiter)
      else if ch == '\n' then Parse(EndRow(s), rest, delimiter)
      else if ch == '\r' && rest != [] && rest[0] == '\n' then Parse(s, rest, delimiter)
      else if s.closed then Err(CharactersAfterQuote)
      else Parse(s.(field := s.field + [ch]), rest, delimiter)
  }

  method Rows(input: Text, delimiter: char) returns (result: Result<seq<seq<Text>>, ScanError>)
    ensures result == Parse(START, input, delimiter)
  {
    var rows: seq<seq<Text>>, row: seq<Text>, field: Text := [], [], [];
    var quoted, closed := false, false;
    var i := 0;
    assert input[0..] == input;
    while i < |input|
      invariant 0 <= i <= |input|
      invariant Parse(Scanner(rows, row, field, quoted, closed), input[i..], delimiter) ==
                  Parse(START, input, delimiter)
    {
      var ch := input[i];
      assert input[i..][0] == ch && input[i..][1..] == input[i + 1..];
      i := i + 1;
      var next := if i < |input| then Some(input[i]) else None;
      assert next.Some? ==> input[i..][0] == next.value && input[i..][1..] == input[i + 1..];
      if quoted {
        if ch == QUOTE {
          if next == Some(QUOTE) {
            i := i + 1;
            field := field + [QUOTE];
          } else {
            quoted, closed := false, true;
          }
        } else {
          field := field + [ch];
        }
        continue;
      }
      if ch == QUOTE && field == [] && !closed {
        quoted := true;
      } else if ch == QUOTE {
        return Err(UnexpectedQuote);
      } else if ch == delimiter {
        row, field, closed := row + [field], [], false;
      } else if ch == '\n' {
        row, field := row + [field], [];
        if !AllEmpty(row) {
          rows := rows + [row];
        }
        row, closed := [], false;
      } else if ch == '\r' && next == Some('\n') {
      } else if closed {
        return Err(CharactersAfterQuote);
      } else {
        field := field + [ch];
      }
    }
    assert input[i..] == [];
    if quoted {
      return Err(UnclosedQuote);
    }
    if field != [] || row != [] || closed {
      row := row + [field];
      rows := rows + [row];
    }
    return Ok(rows);
  }

  // ---------- The writer ----------

  /** A field is written between quotes with its own quotes doubled, or as it stands. */
  datatype Field = Quoted(text: Text) | Plain(text: Text)

  function EscapeChar(c: char): Text {
    if c == QUOTE then [QUOTE, QUOTE] else [c]
  }

  function Escape(t: Text): Text {
    if t == [] then [] else EscapeChar(t[0]) + Escape(t[1..])
  }

  function FieldText(f: Field): Text {
    match f
    case Quoted(text) => [QUOTE] + Escape(text) + [QUOTE]
    case Plain(text) => text
  }

  function RowText(fields: seq<Field>, delimiter: char): Text
    requires fields != []
  {
    if |fields| == 1 then FieldText(fields[0]) + ['\r', '\n']
    else FieldText(fields[0]) + [delimiter] + RowText(fields[1..], delimiter)
  }

  predicate IsTable(rows: seq<seq<Field>>) {
    forall i :: 0 <= i < |rows| ==> rows[i] != []
  }

  function TableText(rows: seq<seq<Field>>, delimiter: char): Text
    requires IsTable(rows)
  {
    if rows == [] then [] else TableText(rows[..|rows| - 1], delimiter) + RowText(rows[|rows| - 1], delimiter)
  }

  function Texts(fields: seq<Field>): (texts: seq<Text>)
    ensures |texts| == |fields| && forall i :: 0 <= i < |fields| ==> texts[i] == fields[i].text
  {
    seq(|fields|, i requires 0 <= i < |fields| => fields[i].text)
  }

  /** Every character may delimit fields that the reader does not give another meaning. */
  predicate IsDelimiter(c: char) {
    c != QUOTE && c != '\r' && c != '\n'
  }

  /** Text that is written as it stands must hold nothing the reader treats specially. */
  predicate Bare(t: Text, d: char) {
    forall c <- t :: c != QUOTE && c != d && c != '\r' && c != '\n'
  }

  predicate Writable(fields: seq<Field>, d: char) {
    && fields != []
    && (forall f <- fields :: f.Plain? ==> Bare(f.text, d))
    && exists f <- fields :: f.text != []
  }

  lemma {:induction false} EscapeAppends(a: Text, b: Text)
    ensures Escape(a + b) == Escape(a) + Escape(b)
  {
    if a == [] {
      assert a + b == b;
    } else {
      EscapeAppends(a[1..], b);
      assert (a + b)[1..] == a[1..] + b;
      Associates(EscapeChar(a[0]), Escape(a[1..]), Escape(b));
    }
  }

  lemma EscapeNext(t: Text, i: nat)
    requires i < |t|
    ensures Escape(t[..i + 1]) == Escape(t[..i]) + EscapeChar(t[i])
  {
    assert t[..i + 1] == t[..i] + [t[i]];
    EscapeAppends(t[..i], [t[i]]);
    assert [t[i]][1..] == [];
    assert Escape([t[i]]) == EscapeChar(t[i]) + [];
  }

  lemma EscapeGoesOn(t: Text, start: nat, i: nat, out: Text)
    requires start <= i < |t| && out + t[start..i] == Escape(t[..i])
    ensures t[i] == QUOTE ==> out + t[start..i] + [QUOTE, QUOTE] + t[i + 1..i + 1] == Escape(t[..i + 1])
    ensures t[i] != QUOTE ==> out + t[start..i + 1] == Escape(t[..i + 1])
  {
    EscapeNext(t, i);
    hide Escape;
    if t[i] == QUOTE {
      var done := Escape(t[..i]) + [QUOTE, QUOTE];
      assert t[i + 1..i + 1] == [] && done + [] == done;
    } else {
      assert t[start..i + 1] == t[start..i] + [t[i]];
      Associates(out, t[start..i], [t[i]]);
    }
  }

  /** Escapes by copying the stretches between quotes and doubling the quotes. */
  method Escaped(t: Text) returns (out: Text)
    ensures out == Escape(t)
  {
    hide Escape;
    out := [];
    var start := 0;
    assert Escape(t[..0]) == [] by { EscapeNothing(); }
    for i := 0 to |t|
      invariant 0 <= start <= i && out + t[start..i] == Escape(t[..i])
    {
      EscapeGoesOn(t, start, i, out);
      if t[i] == QUOTE {
        out := out + t[start..i] + [QUOTE, QUOTE];
        start := i + 1;
      }
    }
    assert t[..|t|] == t;
    out := out + t[start..];
  }

  lemma EscapeNothing()
    ensures Escape([]) == []
  {
  }

  // ---------- Reading back what was written ----------

  /** One escaped character between quotes is read as that character. */
  lemma CharIsRead(s: Scanner, c: char, rest: Text, d: char)
    requires s.quoted && rest != []
    ensures Parse(s, EscapeChar(c) + rest, d) == Parse(s.(field := s.field + [c]), rest, d)
  {
    var t := EscapeChar(c) + rest;
    if c == QUOTE {
      assert t[1..][0] == QUOTE && t[1..][1..] == rest;
    } else {
      assert t[1..] == rest;
    }
  }

  lemma QuoteEnds(s: Scanner, rest: Text, d: char)
    requires s.quoted && !s.closed && rest != [] && rest[0] != QUOTE
    ensures Parse(s, [QUOTE] + rest, d) == Parse(s.(quoted := false, closed := true), rest, d)
  {
    assert ([QUOTE] + rest)[1..] == rest;
  }

  /** A quoted field is read back whole, whatever it holds. */
  lemma {:induction false} QuotedIsRead(s: Scanner, text: Text, rest: Text, d: char)
    requires s.quoted && !s.closed && rest != [] && rest[0] != QUOTE
    ensures Parse(s, Escape(text) + [QUOTE] + rest, d) ==
            Parse(s.(field := s.field + text, quoted := false, closed := true), rest, d)
    decreases |text|
  {
    hide Parse, EscapeChar;
    if text == [] {
      QuoteEnds(s, rest, d);
      assert [] + [QUOTE] + rest == [QUOTE] + rest && s.field + text == s.field;
    } else {
      var s' := s.(field := s.field + [text[0]]);
      var tail := Escape(text[1..]) + [QUOTE] + rest;
      Associates(EscapeChar(text[0]), Escape(text[1..]), [QUOTE]);
      Associates(EscapeChar(text[0]), Escape(text[1..]) + [QUOTE], rest);
      CharIsRead(s, text[0], tail, d);
      QuotedIsRead(s', text[1..], rest, d);
      assert s'.field + text[1..] == s.field + text;
    }
  }

  lemma {:induction false} BareIsRead(s: Scanner, text: Text, rest: Text, d: char)
    requires !s.quoted && !s.closed && Bare(text, d) && IsDelimiter(d)
    ensures Parse(s, text + rest, d) == Parse(s.(field := s.field + text), rest, d)
    decreases |text|
  {
    if text == [] {
      assert text + rest == rest && s.field + text == s.field;
    } else {
      var s' := s.(field := s.field + [text[0]]);
      assert text[0] in text && forall c <- text[1..] :: c in text;
      BareIsRead(s', text[1..], rest, d);
      assert (text + rest)[1..] == text[1..] + rest && s'.field + text[1..] == s.field + text;
    }
  }

  /** After a field the scanner holds its text; it may or may not be in the state that follows a quote. */
  lemma FieldIsRead(rows: seq<seq<Text>>, row: seq<Text>, f: Field, rest: Text, d: char) returns (closed: bool)
    requires (f.Plain? ==> Bare(f.text, d)) && IsDelimiter(d) && rest != [] && rest[0] != QUOTE
    ensures Parse(Scanner(rows, row, [], false, false), FieldText(f) + rest, d) ==
            Parse(Scanner(rows, row, f.text, false, closed), rest, d)
  {
    var s := Scanner(rows, row, [], false, false);
    closed := f.Quoted?;
    assert [] + f.text == f.text;
    match f
    case Quoted(text) =>
      var t := FieldText(f) + rest;
      assert t[1..] == Escape(text) + [QUOTE] + rest;
      QuotedIsRead(s.(quoted := true), text, rest, d);
    case Plain(text) =>
      BareIsRead(s, text, rest, d);
  }

  lemma {:induction false} RowIsRead(rows: seq<seq<Text>>, row: seq<Text>, fields: seq<Field>, rest: Text, d: char)
    requires fields != [] && (forall f <- fields :: f.Plain? ==> Bare(f.text, d)) && IsDelimiter(d)
    requires !AllEmpty(row + Texts(fields))
    ensures Parse(Scanner(rows, row, [], false, false), RowText(fields, d) + rest, d) ==
            Parse(Scanner(rows + [row + Texts(fields)], [], [], false, false), rest, d)
    decreases |fields|
  {
    hide Parse, FieldText, Bare;
    var f := fields[0];
    assert f in fields;
    if |fields| == 1 {
      Associates(FieldText(f), ['\r', '\n'], rest);
      var closed := FieldIsRead(rows, row, f, ['\r', '\n'] + rest, d);
      LineEndIsRead(Scanner(rows, row, f.text, false, closed), rest, d);
      assert Texts(fields) == [f.text];
    } else {
      var tail := RowText(fields[1..], d) + rest;
      Associates(FieldText(f) + [d], RowText(fields[1..], d), rest);
      Associates(FieldText(f), [d], tail);
      var closed := FieldIsRead(rows, row, f, [d] + tail, d);
      DelimiterIsRead(Scanner(rows, row, f.text, false, closed), tail, d);
      assert row + Texts(fields) == row + [f.text] + Texts(fields[1..]);
      RowIsRead(rows, row + [f.text], fields[1..], rest, d);
    }
  }

  lemma LineEndIsRead(s: Scanner, rest: Text, d: char)
    requires !s.quoted && IsDelimiter(d)
    ensures Parse(s, ['\r', '\n'] + rest, d) == Parse(EndRow(s), rest, d)
  {
    var t := ['\r', '\n'] + rest;
    assert t[1..] == ['\n'] + rest && t[1..][1..] == rest;
    assert Parse(s, t, d) == Parse(s, t[1..], d);
  }

  lemma DelimiterIsRead(s: Scanner, rest: Text, d: char)
    requires !s.quoted && IsDelimiter(d)
    ensures Parse(s, [d] + rest, d) == Parse(EndField(s, false), rest, d)
  {
    assert ([d] + rest)[1..] == rest;
  }

  function AllTexts(rows: seq<seq<Field>>): (texts: seq<seq<Text>>)
    ensures |texts| == |rows| && forall i :: 0 <= i < |rows| ==> texts[i] == Texts(rows[i])
  {
    seq(|rows|, i requires 0 <= i < |rows| => Texts(rows[i]))
  }

  lemma {:induction false} RowsAreRead(rows: seq<seq<Field>>, rest: Text, d: char)
    requires IsTable(rows) && (forall row <- rows :: Writable(row, d)) && IsDelimiter(d)
    ensures Parse(START, TableText(rows, d) + rest, d) == Parse(START.(rows := AllTexts(rows)), rest, d)
    decreases |rows|
  {
    if rows == [] {
      assert TableText(rows, d) + rest == rest && |AllTexts(rows)| == 0;
    } else {
      hide Parse, Writable, RowText, AllTexts, Texts;
      var n := |rows| - 1;
      assert rows[n] in rows && forall row <- rows[..n] :: row in rows;
      RowsAreRead(rows[..n], RowText(rows[n], d) + rest, d);
      Associates(TableText(rows[..n], d), RowText(rows[n], d), rest);
      LastRowIsRead(AllTexts(rows[..n]), rows[n], rest, d);
      AllTextsNext(rows);
    }
  }

  lemma AllTextsNext(rows: seq<seq<Field>>)
    requires rows != []
    ensures AllTexts(rows) == AllTexts(rows[..|rows| - 1]) + [Texts(rows[|rows| - 1])]
  {
  }

  lemma LastRowIsRead(before: seq<seq<Text>>, row: seq<Field>, rest: Text, d: char)
    requires Writable(row, d) && IsDelimiter(d)
    ensures Parse(START.(rows := before), RowText(row, d) + rest, d) ==
              Parse(START.(rows := before + [Texts(row)]), rest, d)
  {
    var f :| f in row && f.text != [];
    var i :| 0 <= i < |row| && row[i] == f;
    assert [] + Texts(row) == Texts(row);
    assert Texts(row)[i] != [];
    RowIsRead(before, [], row, rest, d);
  }

  /** Round trip: reading a written table gives back the text of every field of every row. */
  lemma TableRoundTrip(rows: seq<seq<Field>>, d: char)
    requires IsTable(rows) && (forall row <- rows :: Writable(row, d)) && IsDelimiter(d)
    ensures Parse(START, TableText(rows, d), d) == Ok(AllTexts(rows))
  {
    RowsAreRead(rows, [], d);
    assert TableText(rows, d) + [] == TableText(rows, d);
  }

  // ---------- What else is read ----------

  /** A line may end in a line feed alone. */
  lemma LineFeedIsRead(s: Scanner, rest: Text, d: char)
    requires !s.quoted && IsDelimiter(d)
    ensures Parse(s, ['\n'] + rest, d) == Parse(s, ['\r', '\n'] + rest, d)
  {
    LineEndIsRead(s, rest, d);
    assert (['\n'] + rest)[1..] == rest;
  }

  function WithLineFeed(row: Text): Text
    requires |row| >= 2
  {
    row[..|row| - 2] + ['\n']
  }

  lemma {:induction false} RowEndsInBoth(fields: seq<Field>, d: char)
    requires fields != []
    ensures |RowText(fields, d)| >= 2 && RowText(fields, d)[|RowText(fields, d)| - 2..] == ['\r', '\n']
    decreases |fields|
  {
    if |fields| > 1 {
      RowEndsInBoth(fields[1..], d);
    }
  }

  lemma {:induction false} FeedRowIsRead(rows: seq<seq<Text>>, row: seq<Text>, fields: seq<Field>, rest: Text, d: char)
    requires fields != [] && (forall f <- fields :: f.Plain? ==> Bare(f.text, d)) && IsDelimiter(d)
    requires |RowText(fields, d)| >= 2
    ensures Parse(Scanner(rows, row, [], false, false), WithLineFeed(RowText(fields, d)) + rest, d) ==
            Parse(Scanner(rows, row, [], false, false), RowText(fields, d) + rest, d)
    decreases |fields|
  {
    hide Parse, FieldText, Bare;
    var f := fields[0];
    assert f in fields;
    if |fields| == 1 {
      var line := RowText(fields, d);
      assert WithLineFeed(line) == FieldText(f) + ['\n'];
      Associates(FieldText(f), ['\n'], rest);
      Associates(FieldText(f), ['\r', '\n'], rest);
      var a := FieldIsRead(rows, row, f, ['\n'] + rest, d);
      var b := FieldIsRead(rows, row, f, ['\r', '\n'] + rest, d);
      EitherEnd(rows, row, f.text, a, b, rest, d);
    } else {
      RowEndsInBoth(fields[1..], d);
      var line := RowText(fields[1..], d);
      FeedOfRest(FieldText(f) + [d], line);
      var feed, both := WithLineFeed(line) + rest, line + rest;
      Associates(FieldText(f) + [d], WithLineFeed(line), rest);
      Associates(FieldText(f) + [d], line, rest);
      Associates(FieldText(f), [d], feed);
      Associates(FieldText(f), [d], both);
      var a := FieldIsRead(rows, row, f, [d] + feed, d);
      var b := FieldIsRead(rows, row, f, [d] + both, d);
      DelimiterIsRead(Scanner(rows, row, f.text, false, a), feed, d);
      DelimiterIsRead(Scanner(rows, row, f.text, false, b), both, d);
      FeedRowIsRead(rows, row + [f.text], fields[1..], rest, d);
    }
  }

  lemma EitherEnd(rows: seq<seq<Text>>, row: seq<Text>, field: Text, a: bool, b: bool, rest: Text, d: char)
    requires IsDelimiter(d)
    ensures Parse(Scanner(rows, row, field, false, a), ['\n'] + rest, d) ==
            Parse(Scanner(rows, row, field, false, b), ['\r', '\n'] + rest, d)
  {
    hide Parse;
    LineFeedIsRead(Scanner(rows, row, field, false, a), rest, d);
    LineEndIsRead(Scanner(rows, row, field, false, a), rest, d);
    LineEndIsRead(Scanner(rows, row, field, false, b), rest, d);
  }

  lemma FeedOfRest(first: Text, line: Text)
    requires |line| >= 2
    ensures WithLineFeed(first + line) == first + WithLineFeed(line)
  {
  }

  /** A table whose lines end in line feeds alone. */
  function FeedText(rows: seq<seq<Field>>, d: char): Text
    requires IsTable(rows)
  {
    if rows == [] then []
    else
      RowEndsInBoth(rows[|rows| - 1], d);
      FeedText(rows[..|rows| - 1], d) + WithLineFeed(RowText(rows[|rows| - 1], d))
  }

  lemma {:induction false} FeedsAreRead(rows: seq<seq<Field>>, rest: Text, d: char)
    requires IsTable(rows) && (forall row <- rows :: Writable(row, d)) && IsDelimiter(d)
    ensures Parse(START, FeedText(rows, d) + rest, d) == Parse(START.(rows := AllTexts(rows)), rest, d)
    decreases |rows|
  {
    if rows == [] {
      assert FeedText(rows, d) + rest == rest && |AllTexts(rows)| == 0;
    } else {
      hide Parse, Writable, RowText, AllTexts, Texts, WithLineFeed;
      var n := |rows| - 1;
      RowEndsInBoth(rows[n], d);
      assert rows[n] in rows && forall row <- rows[..n] :: row in rows;
      FeedsAreRead(rows[..n], WithLineFeed(RowText(rows[n], d)) + rest, d);
      Associates(FeedText(rows[..n], d), WithLineFeed(RowText(rows[n], d)), rest);
      WritableIsBare(rows[n], d);
      FeedRowIsRead(AllTexts(rows[..n]), [], rows[n], rest, d);
      LastRowIsRead(AllTexts(rows[..n]), rows[n], rest, d);
      AllTextsNext(rows);
    }
  }

  lemma WritableIsBare(row: seq<Field>, d: char)
    requires Writable(row, d)
    ensures row != [] && forall f <- row :: f.Plain? ==> Bare(f.text, d)
  {
  }

  /** The same rows are read whether lines end in a carriage return and a line feed or in a line feed alone. */
  lemma LineFeedsAreEnough(rows: seq<seq<Field>>, d: char)
    requires IsTable(rows) && (forall row <- rows :: Writable(row, d)) && IsDelimiter(d)
    ensures Parse(START, FeedText(rows, d), d) == Parse(START, TableText(rows, d), d) == Ok(AllTexts(rows))
  {
    TableRoundTrip(rows, d);
    FeedsAreRead(rows, [], d);
    assert FeedText(rows, d) + [] == FeedText(rows, d);
  }

  // ---------- Turning commas into tabs on the way out ----------

  function QuotedAfter(quoted: bool, t: Text): bool
    decreases |t|
  {
    if t == [] then quoted else QuotedAfter(if t[0] == QUOTE then !quoted else quoted, t[1..])
  }

  function Tabbed(quoted: bool, t: Text): Text
    decreases |t|
  {
    if t == [] then []
    else if t[0] == QUOTE then [QUOTE] + Tabbed(!quoted, t[1..])
    else [if t[0] == ',' && !quoted then '\t' else t[0]] + Tabbed(quoted, t[1..])
  }

  /** What can be read has its quotes in pairs. */
  lemma {:induction false} ReadableIsBalanced(s: Scanner, t: Text, d: char)
    requires IsDelimiter(d) && Parse(s, t, d).Ok?
    ensures !QuotedAfter(s.quoted, t)
    decreases |t|
  {
    if t != [] {
      var ch, rest := t[0], t[1..];
      if s.quoted {
        if ch != QUOTE {
          ReadableIsBalanced(s.(field := s.field + [ch]), rest, d);
        } else if rest != [] && rest[0] == QUOTE {
          ReadableIsBalanced(s.(field := s.field + [QUOTE]), rest[1..], d);
        } else {
          ReadableIsBalanced(s.(quoted := false, closed := true), rest, d);
        }
      } else if ch == QUOTE {
        ReadableIsBalanced(s.(quoted := true), rest, d);
      } else if ch == d {
        ReadableIsBalanced(EndField(s, false), rest, d);
      } else if ch == '\n' {
        ReadableIsBalanced(EndRow(s), rest, d);
      } else if ch == '\r' && rest != [] && rest[0] == '\n' {
        ReadableIsBalanced(s, rest, d);
      } else {
        ReadableIsBalanced(s.(field := s.field + [ch]), rest, d);
      }
    }
  }

  function TabbedChar(quoted: bool, c: char): char {
    if c == ',' && !quoted then '\t' else c
  }

  lemma TabbedFirst(quoted: bool, t: Text)
    requires t != []
    ensures var after := if t[0] == QUOTE then !quoted else quoted;
            && Tabbed(quoted, t) == [TabbedChar(quoted, t[0])] + Tabbed(after, t[1..])
            && QuotedAfter(quoted, t) == QuotedAfter(after, t[1..])
  {
  }

  lemma {:induction false} TabbedAppends(quoted: bool, a: Text, b: Text)
    ensures Tabbed(quoted, a + b) == Tabbed(quoted, a) + Tabbed(QuotedAfter(quoted, a), b)
    ensures QuotedAfter(quoted, a + b) == QuotedAfter(QuotedAfter(quoted, a), b)
    decreases |a|
  {
    if a == [] {
      assert a + b == b;
      NothingTabbed(quoted);
      assert [] + Tabbed(quoted, b) == Tabbed(quoted, b);
    } else {
      assert (a + b)[1..] == a[1..] + b;
      TabbedFirst(quoted, a);
      TabbedFirst(quoted, a + b);
      hide Tabbed, QuotedAfter;
      var after := if a[0] == QUOTE then !quoted else quoted;
      TabbedAppends(after, a[1..], b);
      Associates([TabbedChar(quoted, a[0])], Tabbed(after, a[1..]), Tabbed(QuotedAfter(after, a[1..]), b));
    }
  }

  lemma TabbedNext(quoted: bool, t: Text, i: nat)
    requires i < |t|
    ensures Tabbed(quoted, t[..i + 1]) == Tabbed(quoted, t[..i]) + [TabbedChar(QuotedAfter(quoted, t[..i]), t[i])]
    ensures QuotedAfter(quoted, t[..i + 1]) == (QuotedAfter(quoted, t[..i]) != (t[i] == QUOTE))
  {
    assert t[..i + 1] == t[..i] + [t[i]] && [t[i]][1..] == [];
    TabbedAppends(quoted, t[..i], [t[i]]);
  }

  /** A writer that replaces the separating commas of whatever is written through it. */
  class TabWriter {
    var output: Text
    var quoted: bool

    constructor ()
      ensures output == [] && !quoted
    {
      output, quoted := [], false;
    }

    method Write(bytes: Text)
      modifies this
      ensures output == old(output) + Tabbed(old(quoted), bytes) && quoted == QuotedAfter(old(quoted), bytes)
    {
      hide Tabbed, QuotedAfter;
      var start := 0;
      ghost var before, q := output, quoted;
      NothingTabbed(q);
      for i := 0 to |bytes|
        invariant 0 <= start <= i
        invariant output + bytes[start..i] == before + Tabbed(q, bytes[..i])
        invariant quoted == QuotedAfter(q, bytes[..i])
      {
        TabbedNext(q, bytes, i);
        ghost var c := TabbedChar(quoted, bytes[i]);
        Associates(before, Tabbed(q, bytes[..i]), [c]);
        if bytes[i] == ',' && !quoted {
          output := output + bytes[start..i];
          output := output + ['\t'];
          start := i + 1;
          assert bytes[start..i + 1] == [];
        } else {
          assert bytes[start..i + 1] == bytes[start..i] + [bytes[i]];
          Associates(output, bytes[start..i], [bytes[i]]);
        }
        if bytes[i] == QUOTE {
          quoted := !quoted;
        }
      }
      assert bytes[..|bytes|] == bytes;
      output := output + bytes[start..];
    }
  }

  lemma NothingTabbed(quoted: bool)
    ensures Tabbed(quoted, []) == [] && QuotedAfter(quoted, []) == quoted
  {
  }

  function Concat(chunks: seq<Text>): Text {
    if chunks == [] then [] else Concat(chunks[..|chunks| - 1]) + chunks[|chunks| - 1]
  }

  /** However the writes are split, the output is that of one write of everything. */
  method WriteChunks(chunks: seq<Text>) returns (output: Text)
    ensures output == Tabbed(false, Concat(chunks))
  {
    var writer := new TabWriter();
    for i := 0 to |chunks|
      invariant fresh(writer) && writer.output == Tabbed(false, Concat(chunks[..i]))
      invariant writer.quoted == QuotedAfter(false, Concat(chunks[..i]))
    {
      assert chunks[..i + 1][..i] == chunks[..i];
      TabbedAppends(false, Concat(chunks[..i]), chunks[i]);
      writer.Write(chunks[i]);
    }
    assert chunks[..|chunks|] == chunks;
    output := writer.output;
  }

  lemma {:induction false} TabbedEscape(t: Text)
    ensures Tabbed(true, Escape(t)) == Escape(t) && QuotedAfter(true, Escape(t))
  {
    if t != [] {
      TabbedEscape(t[1..]);
      if t[0] == QUOTE {
        assert Escape(t)[1..] == [QUOTE] + Escape(t[1..]) && Escape(t)[1..][1..] == Escape(t[1..]);
      } else {
        assert Escape(t)[1..] == Escape(t[1..]);
      }
    }
  }

  lemma {:induction false} TabbedBare(t: Text)
    requires Bare(t, ',')
    ensures Tabbed(false, t) == t && !QuotedAfter(false, t)
  {
    if t != [] {
      assert t[0] in t && forall c <- t[1..] :: c in t;
      TabbedBare(t[1..]);
    }
  }

  lemma TabbedField(f: Field)
    requires f.Plain? ==> Bare(f.text, ',')
    ensures Tabbed(false, FieldText(f)) == FieldText(f) && !QuotedAfter(false, FieldText(f))
  {
    match f
    case Plain(text) => TabbedBare(text);
    case Quoted(text) =>
      TabbedEscape(text);
      var t := FieldText(f);
      assert t[1..] == Escape(text) + [QUOTE] && [QUOTE][1..] == [];
      TabbedAppends(true, Escape(text), [QUOTE]);
  }

  lemma {:induction false} TabbedRow(fields: seq<Field>)
    requires fields != [] && forall f <- fields :: f.Plain? ==> Bare(f.text, ',')
    ensures Tabbed(false, RowText(fields, ',')) == RowText(fields, '\t') && !QuotedAfter(false, RowText(fields, ','))
    decreases |fields|
  {
    var f := fields[0];
    assert f in fields;
    TabbedField(f);
    if |fields| == 1 {
      var tail: Text := ['\r', '\n'];
      assert Bare([], ',') && tail[1..] == ['\n'] && tail[1..][1..] == [];
      TabbedAppends(false, FieldText(f), tail);
    } else {
      TabbedRow(fields[1..]);
      var tail := [','] + RowText(fields[1..], ',');
      assert tail[1..] == RowText(fields[1..], ',');
      TabbedAppends(false, FieldText(f), tail);
      Associates(FieldText(f), [','], RowText(fields[1..], ','));
      Associates(FieldText(f), ['\t'], RowText(fields[1..], '\t'));
    }
  }

  /** The tab-separated form of a table is the comma-separated one seen through the filter. */
  lemma {:induction false} TabbedTable(rows: seq<seq<Field>>)
    requires IsTable(rows) && forall row <- rows :: Writable(row, ',')
    ensures Tabbed(false, TableText(rows, ',')) == TableText(rows, '\t') && !QuotedAfter(false, TableText(rows, ','))
    decreases |rows|
  {
    if rows != [] {
      var n := |rows| - 1;
      assert rows[n] in rows && forall row <- rows[..n] :: row in rows;
      TabbedTable(rows[..n]);
      TabbedRow(rows[n]);
      TabbedAppends(false, TableText(rows[..n], ','), RowText(rows[n], ','));
    }
  }
}
