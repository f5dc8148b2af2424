/** The CSV reader: `parseCSVLine`, the quote-aware field splitter, and
    `parseCSV`, which turns the whole file into rows keyed by the header.

    The splitter is given twice: `ParseLine` is the character loop of the
    source, and `Fields` is a reference definition that first tokenizes the
    line (`Lex`) and then cuts the token stream at the separators. */
module Csv {
  import opened Wrappers
  import opened Text

  // ---------------------------------------------------------------------
  // Reference definition of the field splitter

  /** What one step of the scan contributes to the current line: a
      character of the current field, or the end of a field. Quote
      characters that only switch the quoting state contribute nothing. */
  datatype Token = Char(c: char) | Sep

  /** Tokenizes `s`, starting in the given quoting state. Inside quotes a
      doubled quote stands for one literal quote (section 2, rule 7 of
      RFC 4180); any other quote toggles the state, and a comma is a
      separator only outside quotes. */
  function Lex(s: string, inQuotes: bool): seq<Token>
    decreases |s|
  {
    if s == [] then []
    else if s[0] == '"' then
      if inQuotes && |s| > 1 && s[1] == '"' then [Char('"')] + Lex(s[2..], inQuotes)
      else Lex(s[1..], !inQuotes)
    else if s[0] == ',' && !inQuotes then [Sep] + Lex(s[1..], inQuotes)
    else [Char(s[0])] + Lex(s[1..], inQuotes)
  }

  /** The characters a separator-free token run stands for. */
  function Chars(ts: seq<Token>): string {
    if ts == [] then []
    else (if ts[0].Char? then [ts[0].c] else []) + Chars(ts[1..])
  }

  /** The untrimmed fields of a token stream. */
  function Pieces(ts: seq<Token>): (ps: seq<string>)
    ensures |ps| == Count(ts, Sep) + 1
  {
    var parts := Split(ts, Sep);
    seq(|parts|, i requires 0 <= i < |parts| => Chars(parts[i]))
  }

  /** The fields of a line: one more than there are commas outside quotes,
      each trimmed. */
  function Fields(line: string): (fields: seq<string>)
    ensures |fields| == Count(Lex(line, false), Sep) + 1
    ensures forall i :: 0 <= i < |fields| ==> IsTrimmed(fields[i])
  {
    TrimEach(Pieces(Lex(line, false)))
  }

  // ---------------------------------------------------------------------
  // The source's character loop

  /** `parseCSVLine`: the fields the character loop of the source returns,
      which are exactly those of the reference definition. */
  function ParseLine(line: string): (fields: seq<string>)
    ensures fields == Fields(line)
  {
    ParseLineMatchesFields(line);
    Scan(line, 0, false, "", [])
  }

  lemma ParseLineMatchesFields(line: string)
    ensures Scan(line, 0, false, "", []) == Fields(line)
  {
    ScanMatchesFields(line, 0, false, "", []);
    assert line[0..] == line;
    PrefixedEmpty(Pieces(Lex(line, false)));
  }

  /** The loop of `parseCSVLine` from index `i` on, with the quoting state,
      the field being built and the fields pushed so far. A doubled quote
      inside quotes adds one quote and skips the second character. */
  function Scan(line: string, i: nat, inQuotes: bool, current: string, result: seq<string>): seq<string>
    decreases |line| - i
  {
    if i >= |line| then result + [Trim(current)]
    else if line[i] == '"' then
      if inQuotes && i + 1 < |line| && line[i + 1] == '"' then
        Scan(line, i + 2, inQuotes, current + "\"", result)
      else Scan(line, i + 1, !inQuotes, current, result)
    else if line[i] == ',' && !inQuotes then
      Scan(line, i + 1, inQuotes, "", result + [Trim(current)])
    else Scan(line, i + 1, inQuotes, current + [line[i]], result)
  }

  /** The pieces `ps` with `current` written in front of the first. */
  function Prefixed(current: string, ps: seq<string>): seq<string>
    requires |ps| > 0
  {
    [current + ps[0]] + ps[1..]
  }

  /** The reference result from index `i` on: the fields pushed so far,
      then the trimmed pieces of the rest of the line, the first of them
      continuing the field being built. */
  function Expected(line: string, i: nat, inQuotes: bool, current: string, result: seq<string>): seq<string>
    requires i <= |line|
  {
    result + TrimEach(Prefixed(current, Pieces(Lex(line[i..], inQuotes))))
  }

  /** From any point of the scan, the loop finishes with the reference
      result. */
  lemma {:induction false} ScanMatchesFields(line: string, i: nat, inQuotes: bool, current: string, result: seq<string>)
    requires i <= |line|
    ensures Scan(line, i, inQuotes, current, result) == Expected(line, i, inQuotes, current, result)
    decreases |line| - i
  {
    if i == |line| {
      ScanAtEnd(line, inQuotes, current, result);
    } else if line[i] == '"' {
      if inQuotes && i + 1 < |line| && line[i + 1] == '"' {
        ScanMatchesFields(line, i + 2, inQuotes, current + "\"", result);
        ScanEscapedQuote(line, i, inQuotes, current, result);
      } else {
        ScanMatchesFields(line, i + 1, !inQuotes, current, result);
        LexToggle(line, i, inQuotes);
      }
    } else if line[i] == ',' && !inQuotes {
      ScanMatchesFields(line, i + 1, inQuotes, "", result + [Trim(current)]);
      ScanSeparator(line, i, current, result);
    } else {
      ScanMatchesFields(line, i + 1, inQuotes, current + [line[i]], result);
      ScanOther(line, i, inQuotes, current, result);
    }
  }

  lemma ScanAtEnd(line: string, inQuotes: bool, current: string, result: seq<string>)
    ensures Scan(line, |line|, inQuotes, current, result) == Expected(line, |line|, inQuotes, current, result)
  {
    assert line[|line|..] == [];
    assert Pieces([]) == [""];
    assert [""][1..] == [] && current + "" == current;
    assert Prefixed(current, [""]) == [current];
  }

  lemma ScanEscapedQuote(line: string, i: nat, inQuotes: bool, current: string, result: seq<string>)
    requires i + 1 < |line| && line[i] == '"' && line[i + 1] == '"' && inQuotes
    ensures Expected(line, i, inQuotes, current, result) == Expected(line, i + 2, inQuotes, current + "\"", result)
  {
    LexEscapedQuote(line, i, inQuotes);
    var p := Pieces(Lex(line[i + 2..], inQuotes));
    PiecesConsChar('"', Lex(line[i + 2..], inQuotes));
    assert current + (['"'] + p[0]) == (current + "\"") + p[0];
  }

  lemma ScanSeparator(line: string, i: nat, current: string, result: seq<string>)
    requires i < |line| && line[i] == ','
    ensures Expected(line, i, false, current, result) == Expected(line, i + 1, false, "", result + [Trim(current)])
  {
    LexSeparator(line, i);
    var p := Pieces(Lex(line[i + 1..], false));
    PiecesConsSep(Lex(line[i + 1..], false));
    PrefixedEmpty(p);
    var q := [""] + p;
    assert q[0] == "" && q[1..] == p && current + "" == current;
    assert Prefixed(current, q) == [current] + p;
    TrimEachCons(current, p);
    assert result + ([Trim(current)] + TrimEach(p)) == (result + [Trim(current)]) + TrimEach(p);
  }

  lemma ScanOther(line: string, i: nat, inQuotes: bool, current: string, result: seq<string>)
    requires i < |line| && line[i] != '"' && (line[i] == ',' ==> inQuotes)
    ensures Expected(line, i, inQuotes, current, result) == Expected(line, i + 1, inQuotes, current + [line[i]], result)
  {
    LexOther(line, i, inQuotes);
    var p := Pieces(Lex(line[i + 1..], inQuotes));
    PiecesConsChar(line[i], Lex(line[i + 1..], inQuotes));
    assert current + ([line[i]] + p[0]) == (current + [line[i]]) + p[0];
  }

  lemma PrefixedEmpty(p: seq<string>)
    requires |p| > 0
    ensures Prefixed("", p) == p
  {
    assert "" + p[0] == p[0];
    assert [p[0]] + p[1..] == p;
  }

  /** The steps of the scan at index `i`, as `Lex` takes them. */
  lemma LexEscapedQuote(line: string, i: nat, inQuotes: bool)
    requires i + 1 < |line| && line[i] == '"' && line[i + 1] == '"' && inQuotes
    ensures Lex(line[i..], inQuotes) == [Char('"')] + Lex(line[i + 2..], inQuotes)
  {
    var s := line[i..];
    assert s[0] == line[i] && s[1] == line[i + 1] && s[2..] == line[i + 2..];
  }

  lemma LexToggle(line: string, i: nat, inQuotes: bool)
    requires i < |line| && line[i] == '"'
    requires !(inQuotes && i + 1 < |line| && line[i + 1] == '"')
    ensures Lex(line[i..], inQuotes) == Lex(line[i + 1..], !inQuotes)
  {
    var s := line[i..];
    assert s[0] == line[i] && s[1..] == line[i + 1..];
    if i + 1 < |line| {
      assert s[1] == line[i + 1];
    }
  }

  lemma LexSeparator(line: string, i: nat)
    requires i < |line| && line[i] == ','
    ensures Lex(line[i..], false) == [Sep] + Lex(line[i + 1..], false)
  {
    var s := line[i..];
    assert s[0] == line[i] && s[1..] == line[i + 1..];
  }

  lemma LexOther(line: string, i: nat, inQuotes: bool)
    requires i < |line| && line[i] != '"' && (line[i] == ',' ==> inQuotes)
    ensures Lex(line[i..], inQuotes) == [Char(line[i])] + Lex(line[i + 1..], inQuotes)
  {
    var s := line[i..];
    assert s[0] == line[i] && s[1..] == line[i + 1..];
  }

  lemma PiecesConsChar(c: char, ts: seq<Token>)
    ensures var p := Pieces(ts);
      Pieces([Char(c)] + ts) == [[c] + p[0]] + p[1..]
  {
    var s := [Char(c)] + ts;
    assert s[1..] == ts;
    var parts := Split(ts, Sep);
    assert Chars([Char(c)] + parts[0]) == [c] + Chars(parts[0]) by {
      assert ([Char(c)] + parts[0])[1..] == parts[0];
    }
  }

  lemma PiecesConsSep(ts: seq<Token>)
    ensures Pieces([Sep] + ts) == [""] + Pieces(ts)
  {
    var s := [Sep] + ts;
    assert s[1..] == ts;
  }

  // ---------------------------------------------------------------------
  // Properties of the splitter

  /** The worked example: a quoted field holding a comma and escaped quotes
      is one field, unescaped. */
  lemma QuotedCommaExample(line: string, f: string)
    requires line == "\"Smith, \"\"Bob\"\"\"" && f == "Smith, \"Bob\""
    ensures Fields(line) == [f]
  {
    EscapedSmithBob(f);
    assert line == Quote(f);
    assert IsTrimmed(f);
    QuotedLineRoundTrip([f]);
    assert QuotedLine([f]) == Quote(f);
  }

  lemma EscapedSmithBob(f: string)
    requires f == "Smith, \"Bob\""
    ensures DoubleChar(f, '"') == "Smith, \"\"Bob\"\""
  {
    var smith, bob := f[..7], f[7..];
    assert f == smith + bob;
    DoubleCharAppend(smith, bob, '"');
    DoubleCharIdentity(smith, '"');
    EscapedBob(bob);
  }

  lemma EscapedBob(g: string)
    requires g == "\"Bob\""
    ensures DoubleChar(g, '"') == "\"\"Bob\"\""
  {
    assert DoubleChar(g[4..], '"') == "\"\"";
    assert DoubleChar(g[3..], '"') == "b\"\"";
    assert DoubleChar(g[2..], '"') == "ob\"\"";
    assert DoubleChar(g[1..], '"') == "Bob\"\"";
  }

  /** A field written the way RFC 4180 quotes it. */
  function Quote(f: string): string {
    "\"" + DoubleChar(f, '"') + "\""
  }

  /** Fields written quoted and joined with commas. */
  function QuotedLine(fs: seq<string>): string {
    Join(seq(|fs|, i requires 0 <= i < |fs| => Quote(fs[i])), ',')
  }

  function Literal(f: string): seq<Token> {
    seq(|f|, i requires 0 <= i < |f| => Char(f[i]))
  }

  lemma {:induction false} LexQuotedTail(f: string, rest: string)
    requires rest == [] || rest[0] != '"'
    ensures Lex(DoubleChar(f, '"') + "\"" + rest, true) == Literal(f) + Lex(rest, false)
    decreases |f|
  {
    if f == [] {
      var s := DoubleChar(f, '"') + "\"" + rest;
      assert s[0..] == s && s[1..] == rest;
      LexToggle(s, 0, true);
    } else {
      LexQuotedTail(f[1..], rest);
      LexQuotedStep(f, rest);
      assert Literal(f) == [Char(f[0])] + Literal(f[1..]);
    }
  }

  /** Inside quotes, one escaped character of a quoted field is one
      character token. */
  lemma LexQuotedStep(f: string, rest: string)
    requires f != []
    ensures Lex(DoubleChar(f, '"') + "\"" + rest, true)
         == [Char(f[0])] + Lex(DoubleChar(f[1..], '"') + "\"" + rest, true)
  {
    var s := DoubleChar(f, '"') + "\"" + rest;
    var tail := DoubleChar(f[1..], '"') + "\"" + rest;
    var h := if f[0] == '"' then "\"\"" else [f[0]];
    assert DoubleChar(f, '"') == h + DoubleChar(f[1..], '"');
    assert s == h + tail;
    assert s[0..] == s;
    if f[0] == '"' {
      assert s[2..] == tail;
      LexEscapedQuote(s, 0, true);
    } else {
      assert s[1..] == tail;
      LexOther(s, 0, true);
    }
  }

  lemma LexQuoted(f: string, rest: string)
    requires rest == [] || rest[0] != '"'
    ensures Lex(Quote(f) + rest, false) == Literal(f) + Lex(rest, false)
  {
    var s := Quote(f) + rest;
    assert s[1..] == DoubleChar(f, '"') + "\"" + rest;
    LexQuotedTail(f, rest);
  }

  lemma {:induction false} LexQuotedLine(fs: seq<string>)
    requires |fs| > 0
    ensures Lex(QuotedLine(fs), false) ==
              Join(seq(|fs|, i requires 0 <= i < |fs| => Literal(fs[i])), Sep)
    decreases |fs|
  {
    var quoted := seq(|fs|, i requires 0 <= i < |fs| => Quote(fs[i]));
    var lits := seq(|fs|, i requires 0 <= i < |fs| => Literal(fs[i]));
    if |fs| == 1 {
      assert QuotedLine(fs) == Quote(fs[0]) + "";
      LexQuoted(fs[0], "");
    } else {
      LexQuotedLine(fs[1..]);
      var rest := QuotedLine(fs[1..]);
      assert quoted[1..] == seq(|fs[1..]|, i requires 0 <= i < |fs[1..]| => Quote(fs[1..][i]));
      assert lits[1..] == seq(|fs[1..]|, i requires 0 <= i < |fs[1..]| => Literal(fs[1..][i]));
      assert QuotedLine(fs) == Quote(fs[0]) + ([','] + rest);
      LexQuoted(fs[0], [','] + rest);
      assert ([','] + rest)[1..] == rest;
    }
  }

  lemma {:induction false} CharsOfLiteral(f: string)
    ensures Chars(Literal(f)) == f
    decreases |f|
  {
    if f != [] {
      CharsOfLiteral(f[1..]);
      assert Literal(f)[1..] == Literal(f[1..]);
    }
  }

  /** Quoting round trip: any trimmed fields, quoted and joined with commas,
      are read back unchanged, whatever commas and quotes they hold. */
  lemma QuotedLineRoundTrip(fs: seq<string>)
    requires |fs| > 0
    requires forall i :: 0 <= i < |fs| ==> IsTrimmed(fs[i])
    ensures Fields(QuotedLine(fs)) == fs
  {
    var lits := seq(|fs|, i requires 0 <= i < |fs| => Literal(fs[i]));
    LexQuotedLine(fs);
    JoinThenSplit(lits, Sep);
    forall i | 0 <= i < |fs| ensures Trim(Chars(lits[i])) == fs[i] {
      CharsOfLiteral(fs[i]);
      TrimmedIsFixpoint(fs[i]);
    }
  }

  /** On a line without quotes the splitter is a plain split on commas,
      each piece trimmed. */
  lemma UnquotedFields(line: string)
    requires '"' !in line
    ensures Fields(line) == TrimEach(Split(line, ','))
  {
    UnquotedPieces(line);
  }

  lemma {:induction false} UnquotedPieces(line: string)
    requires '"' !in line
    ensures Pieces(Lex(line, false)) == Split(line, ',')
    decreases |line|
  {
    if line != [] {
      assert line[0] in line && line[0] != '"';
      assert line[0..] == line;
      assert forall c :: c in line[1..] ==> c in line;
      UnquotedPieces(line[1..]);
      if line[0] == ',' {
        LexSeparator(line, 0);
        PiecesConsSep(Lex(line[1..], false));
      } else {
        LexOther(line, 0, false);
        PiecesConsChar(line[0], Lex(line[1..], false));
      }
    }
  }

  // ---------------------------------------------------------------------
  // The table

  /** One column of a row: the header name and the field under it. */
  datatype Field = Field(key: string, value: string)

  /** A row, as the ordered entries of the object the source builds. */
  type Row = seq<Field>

  function Keys(row: Row): seq<string> {
    seq(|row|, i requires 0 <= i < |row| => row[i].key)
  }

  /** `row[key] || ''`: the value under `key`, or the empty string when the
      row has no such column. */
  function Get(row: Row, key: string): (v: string)
    ensures v != [] ==> exists i :: 0 <= i < |row| && row[i] == Field(key, v)
    ensures (forall i :: 0 <= i < |row| ==> row[i].key != key) ==> v == []
    ensures forall i :: (0 <= i < |row| && row[i].key == key
                         && forall j :: 0 <= j < i ==> row[j].key != key) ==> v == row[i].value
  {
    if row == [] then []
    else if row[0].key == key then row[0].value
    else Get(row[1..], key)
  }

  /** `row[k1] || row[k2] || ...`: the first non-empty value among the
      given column names. */
  function GetFirst(row: Row, keys: seq<string>): (v: string)
    ensures v != [] ==> exists i :: 0 <= i < |keys| && Get(row, keys[i]) == v
                                   && forall j :: 0 <= j < i ==> Get(row, keys[j]) == []
    ensures v == [] <==> forall i :: 0 <= i < |keys| ==> Get(row, keys[i]) == []
  {
    if keys == [] then []
    else if Get(row, keys[0]) != [] then Get(row, keys[0])
    else GetFirst(row, keys[1..])
  }

  predicate IsLineTerminator(c: char) {
    c == '\n' || c == '\r' || c == '\U{2028}' || c == '\U{2029}'
  }

  /** `h.replace(/^"(.*)"$/, '$1')`: strips one enclosing pair of quotes,
      provided the text between them has no line terminator (which `.`
      does not match). */
  function Unquote(h: string): (r: string)
    ensures r == h || (|h| >= 2 && h == "\"" + r + "\"")
    ensures '"' !in h ==> r == h
    ensures |h| >= 2 && h == "\"" + r + "\"" ==> forall i :: 0 <= i < |r| ==> !IsLineTerminator(r[i])
    ensures (|h| >= 2 && h[0] == '"' && h[|h| - 1] == '"'
             && forall i :: 1 <= i < |h| - 1 ==> !IsLineTerminator(h[i])) ==> r == h[1..|h| - 1]
    ensures r != h ==> |h| >= 2 && h[0] == '"' && h[|h| - 1] == '"'
  {
    if |h| >= 2 && h[0] == '"' && h[|h| - 1] == '"'
       && forall i :: 1 <= i < |h| - 1 ==> !IsLineTerminator(h[i])
    then
      var r := h[1..|h| - 1];
      assert h == "\"" + r + "\"";
      r
    else h
  }

  /** The header names: the header line split naively on commas (the
      quote-aware splitter is not used here), each token unquoted and
      trimmed. */
  function Headers(line: string): seq<string> {
    var tokens := Split(line, ',');
    seq(|tokens|, i requires 0 <= i < |tokens| => Trim(Unquote(tokens[i])))
  }

  /** On a header line without quotes, the naive header split and the
      quote-aware splitter agree. */
  lemma UnquotedHeaders(line: string)
    requires '"' !in line
    ensures Headers(line) == Fields(line)
  {
    UnquotedFields(line);
    var tokens := Split(line, ',');
    forall i | 0 <= i < |tokens| ensures Unquote(tokens[i]) == tokens[i] {
      assert '"' !in tokens[i] by {
        SplitThenJoin(line, ',');
        JoinKeepsElements(tokens, ',', i);
      }
    }
  }

  lemma {:induction false} JoinKeepsElements<T>(parts: seq<seq<T>>, sep: T, i: nat)
    requires i < |parts|
    ensures forall x :: x in parts[i] ==> x in Join(parts, sep)
    decreases |parts|
  {
    if i > 0 {
      JoinKeepsElements(parts[1..], sep, i - 1);
    }
  }

  /** The row the source builds from one data line. */
  function Zip(keys: seq<string>, values: seq<string>): (row: Row)
    requires |keys| == |values|
    ensures Keys(row) == keys
    ensures forall i :: 0 <= i < |row| ==> row[i].value == values[i]
  {
    seq(|keys|, i requires 0 <= i < |keys| => Field(keys[i], values[i]))
  }

  /** A data line becomes a row when it is not blank and has exactly as
      many fields as the header. */
  predicate IsRowLine(headers: seq<string>, line: string) {
    Trim(line) != [] && |Fields(line)| == |headers|
  }

  /** The row a data line becomes, if any. */
  function LineRow(headers: seq<string>, line: string): (r: seq<Row>)
    ensures |r| <= 1
  {
    if IsRowLine(headers, line) then [Zip(headers, Fields(line))] else []
  }

  /** The rows of the data lines, in order; blank lines and lines with the
      wrong field count are dropped. */
  function RowsOf(headers: seq<string>, lines: seq<string>): seq<Row> {
    ConcatMap(line => LineRow(headers, line), lines)
  }

  /** Rows come out in line order: reading two blocks of lines one after
      the other gives the rows of the first block followed by those of the
      second. */
  lemma RowsOfConcat(headers: seq<string>, a: seq<string>, b: seq<string>)
    ensures RowsOf(headers, a + b) == RowsOf(headers, a) + RowsOf(headers, b)
  {
    ConcatMapAppend(line => LineRow(headers, line), a, b);
  }

  /** There are never more rows than data lines. */
  lemma {:induction false} RowsOfLength(headers: seq<string>, lines: seq<string>)
    ensures |RowsOf(headers, lines)| <= |lines|
    decreases |lines|
  {
    if lines != [] {
      RowsOfLength(headers, lines[1..]);
    }
  }

  /** Every row is keyed by exactly the header names, in header order. */
  lemma {:induction false} RowsOfKeys(headers: seq<string>, lines: seq<string>)
    ensures forall row :: row in RowsOf(headers, lines) ==> Keys(row) == headers
    decreases |lines|
  {
    if lines != [] {
      RowsOfKeys(headers, lines[1..]);
      var here := LineRow(headers, lines[0]);
      assert RowsOf(headers, lines) == here + RowsOf(headers, lines[1..]);
    }
  }

  /** A single line yields its row when it is a row line and nothing
      otherwise. */
  lemma RowsOfOneLine(headers: seq<string>, line: string)
    ensures RowsOf(headers, [line]) ==
              if Trim(line) != [] && |Fields(line)| == |headers|
              then [Zip(headers, Fields(line))] else []
  {
    assert [line][1..] == [];
    assert RowsOf(headers, [line]) == LineRow(headers, line) + RowsOf(headers, []);
  }

  /** A blank line is one that is all whitespace. */
  lemma BlankLineIsWhitespace(line: string)
    ensures Trim(line) == [] <==> AllWhitespace(line)
  {
    TrimEmptyIff(line);
  }

  const MissingDataError := "CSV file must have at least a header row and one data row"

  /** `parseCSV`: fails when the trimmed text has no second line; otherwise
      the rows of the lines after the first, keyed by the header names. */
  function ParseCsv(content: string): (r: Result<seq<Row>, string>)
    ensures r.Failure? <==> '\n' !in Trim(content)
    ensures r.Failure? ==> r.error == MissingDataError
    ensures r.Success? ==>
              var lines := Split(Trim(content), '\n');
              r.value == RowsOf(Headers(lines[0]), lines[1..]) &&
              forall row :: row in r.value ==> Keys(row) == Headers(lines[0])
  {
    var lines := Split(Trim(content), '\n');
    CountZeroIff(Trim(content), '\n');
    if |lines| < 2 then Failure(MissingDataError)
    else
      RowsOfKeys(Headers(lines[0]), lines[1..]);
      Success(RowsOf(Headers(lines[0]), lines[1..]))
  }
}
