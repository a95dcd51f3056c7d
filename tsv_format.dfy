/**
 * `make_tsv` from compare_goodreads.py: the tab-separated comparison table,
 * a fixed header line followed by one newline-terminated line per result
 * tuple, with no escaping.
 *
 * Each field is taken as the text `str.format` renders for it; how a float or
 * an integer is rendered is not modelled.
 */
module TsvFormat {
  import opened Wrappers

  /** One result tuple (friend name, similarity, number of books), as rendered text. */
  datatype ComparisonRow = ComparisonRow(name: string, similarity: string, books: string)

  /** The header line without its terminating newline. */
  const HeaderLine: string := "Name\tPearsons\tBooks"

  /** The text `make_tsv` starts from. */
  const Header: string := HeaderLine + "\n"

  /** A row's three fields joined by tabs. */
  function RowText(row: ComparisonRow): string
  {
    row.name + "\t" + row.similarity + "\t" + row.books
  }

  /** The text appended for one result tuple. */
  function RowLine(row: ComparisonRow): string
  {
    RowText(row) + "\n"
  }

  /** The table after the first `|data|` tuples have been appended. */
  function Tsv(data: seq<ComparisonRow>): string
  {
    if |data| == 0 then Header else Tsv(data[..|data| - 1]) + RowLine(data[|data| - 1])
  }

  /** The source loop: start from the header, append one line per tuple. */
  method MakeTsv(data: seq<ComparisonRow>) returns (tsv: string)
    ensures tsv == Tsv(data)
    ensures |Header| <= |tsv| && tsv[..|Header|] == Header
  {
    tsv := Header;
    for i := 0 to |data|
      invariant tsv == Tsv(data[..i])
    {
      assert data[..i + 1][..i] == data[..i];
      tsv := tsv + RowLine(data[i]);
    }
    assert data[..|data|] == data;
    TsvStartsWithHeader(data);
  }

  /** The table begins with the header, and is exactly the header when there is no data. */
  lemma {:induction false} TsvStartsWithHeader(data: seq<ComparisonRow>)
    ensures |Header| <= |Tsv(data)| && Tsv(data)[..|Header|] == Header
    ensures data == [] ==> Tsv(data) == Header
  {
    if |data| > 0 {
      var init := Tsv(data[..|data| - 1]);
      TsvStartsWithHeader(data[..|data| - 1]);
      assert (init + RowLine(data[|data| - 1]))[..|Header|] == init[..|Header|];
    }
  }

  // ---------------------------------------------------------------------------
  // Reading the table back
  // ---------------------------------------------------------------------------

  /** `s` does not contain `sep`. */
  predicate Free(s: string, sep: char)
  {
    forall i :: 0 <= i < |s| ==> s[i] != sep
  }

  /** No field of the row contains `sep`. */
  predicate RowFree(row: ComparisonRow, sep: char)
  {
    Free(row.name, sep) && Free(row.similarity, sep) && Free(row.books, sep)
  }

  /** No field of the row contains a tab or a newline. */
  predicate CleanRow(row: ComparisonRow)
  {
    RowFree(row, '\t') && RowFree(row, '\n')
  }

  /** The number of occurrences of `sep` in `s`. */
  function Count(s: string, sep: char): nat
  {
    if |s| == 0 then 0 else Count(s[..|s| - 1], sep) + (if s[|s| - 1] == sep then 1 else 0)
  }

  /**
   * The pieces of `s` between occurrences of `sep`, as Python's `str.split(sep)`
   * returns them: one more piece than there are separators.
   */
  function Split(s: string, sep: char): (parts: seq<string>)
    ensures |parts| == Count(s, sep) + 1
  {
    if |s| == 0 then [""]
    else
      var init := Split(s[..|s| - 1], sep);
      if s[|s| - 1] == sep then init + [""]
      else init[..|init| - 1] + [init[|init| - 1] + [s[|s| - 1]]]
  }

  /** The rows of a list of lines, each of which must hold exactly three tab-separated fields. */
  function ParseRows(lines: seq<string>): Option<seq<ComparisonRow>>
  {
    if |lines| == 0 then Some([])
    else
      match ParseRows(lines[..|lines| - 1])
      case None => None
      case Some(rows) =>
        var fields := Split(lines[|lines| - 1], '\t');
        if |fields| != 3 then None
        else Some(rows + [ComparisonRow(fields[0], fields[1], fields[2])])
  }

  /** Reads a table: the header line, the row lines, and the empty piece after the final newline. */
  function ParseTsv(s: string): Option<seq<ComparisonRow>>
  {
    var lines := Split(s, '\n');
    if |lines| < 2 || lines[0] != HeaderLine || lines[|lines| - 1] != "" then None
    else ParseRows(lines[1..|lines| - 1])
  }

  /** A text without the separator is a single piece. */
  lemma {:induction false} SplitFree(s: string, sep: char)
    requires Free(s, sep)
    ensures Split(s, sep) == [s]
  {
    if |s| > 0 {
      var init := s[..|s| - 1];
      SplitFree(init, sep);
      assert init + [s[|s| - 1]] == s;
    }
  }

  /** A separator at the end starts a new, empty piece. */
  lemma SplitAppendSep(a: string, sep: char)
    ensures Split(a + [sep], sep) == Split(a, sep) + [""]
  {
    assert (a + [sep])[..|a|] == a;
  }

  /** A character other than the separator extends the last piece. */
  lemma SplitAppendChar(a: string, ch: char, sep: char)
    requires ch != sep
    ensures var parts := Split(a, sep);
            Split(a + [ch], sep) == parts[..|parts| - 1] + [parts[|parts| - 1] + [ch]]
  {
    assert (a + [ch])[..|a|] == a;
  }

  /** Text without the separator extends the last piece. */
  lemma {:induction false} SplitAppendFree(a: string, b: string, sep: char)
    requires Free(b, sep)
    ensures var parts := Split(a, sep);
            Split(a + b, sep) == parts[..|parts| - 1] + [parts[|parts| - 1] + b]
  {
    var parts := Split(a, sep);
    var front, last := parts[..|parts| - 1], parts[|parts| - 1];
    if |b| == 0 {
      assert a + b == a;
      assert last + b == last;
      assert front + [last] == parts;
    } else {
      var b' := b[..|b| - 1];
      assert Free(b', sep) by {
        forall i | 0 <= i < |b'| ensures b'[i] != sep {
          assert b'[i] == b[i];
        }
      }
      SplitAppendFree(a, b', sep);
      SplitAppendFreeStep(a, b, sep, front, last);
    }
  }

  lemma SplitAppendFreeStep(a: string, b: string, sep: char, front: seq<string>, last: string)
    requires |b| > 0 && b[|b| - 1] != sep
    requires Split(a + b[..|b| - 1], sep) == front + [last + b[..|b| - 1]]
    ensures Split(a + b, sep) == front + [last + b]
  {
    var b', ch := b[..|b| - 1], b[|b| - 1];
    SplitAppendChar(a + b', ch, sep);
    ExtendLast(Split(a + b', sep), front, last + b', ch);
    assert (a + b') + [ch] == a + b by {
      assert b' + [ch] == b;
    }
    assert (last + b') + [ch] == last + b by {
      assert b' + [ch] == b;
    }
  }

  lemma ExtendLast(parts: seq<string>, front: seq<string>, last: string, ch: char)
    requires parts == front + [last]
    ensures parts[..|parts| - 1] + [parts[|parts| - 1] + [ch]] == front + [last + [ch]]
  {
    assert parts[..|parts| - 1] == front;
  }

  /** A clean row's line splits on tabs into its three fields. */
  lemma RowTextFields(row: ComparisonRow)
    requires CleanRow(row)
    ensures Split(RowText(row), '\t') == [row.name, row.similarity, row.books]
  {
    var tab := '\t';
    var a := row.name + "\t";
    var b := a + row.similarity + "\t";
    SplitFree(row.name, tab);
    SplitAppendSep(row.name, tab);
    assert row.name + [tab] == a;
    assert Split(a, tab) == [row.name, ""];
    SplitAppendFree(a, row.similarity, tab);
    assert [row.name, ""][..1] == [row.name] && "" + row.similarity == row.similarity;
    assert Split(a + row.similarity, tab) == [row.name, row.similarity];
    SplitAppendSep(a + row.similarity, tab);
    assert (a + row.similarity) + [tab] == b;
    assert Split(b, tab) == [row.name, row.similarity, ""];
    SplitAppendFree(b, row.books, tab);
    assert [row.name, row.similarity, ""][..2] == [row.name, row.similarity] && "" + row.books == row.books;
    assert b + row.books == RowText(row);
  }

  /** The row texts of `data`, in order. */
  function RowTexts(data: seq<ComparisonRow>): seq<string>
  {
    seq(|data|, k requires 0 <= k < |data| => RowText(data[k]))
  }

  /** The header alone is one line followed by the empty piece after its newline. */
  lemma HeaderLines()
    ensures Split(Header, '\n') == [HeaderLine, ""]
  {
    SplitFree(HeaderLine, '\n');
    SplitAppendSep(HeaderLine, '\n');
    assert HeaderLine + ['\n'] == Header;
  }

  /**
   * When no field holds a newline, the table has exactly `|data| + 1`
   * newline-terminated lines: the header line and then tuple k's fields
   * joined by tabs on line k+1.
   */
  lemma {:induction false} TsvLines(data: seq<ComparisonRow>)
    requires forall k :: 0 <= k < |data| ==> RowFree(data[k], '\n')
    ensures Split(Tsv(data), '\n') == [HeaderLine] + RowTexts(data) + [""]
  {
    var nl := '\n';
    if |data| == 0 {
      HeaderLines();
    } else {
      var init, row := data[..|data| - 1], data[|data| - 1];
      TsvLines(init);
      RowTextFree(row);
      AppendLine(Tsv(init), RowText(row), [HeaderLine] + RowTexts(init));
      assert Tsv(data) == Tsv(init) + RowText(row) + "\n";
      RowTextsAppend(data);
    }
  }

  lemma RowTextsAppend(data: seq<ComparisonRow>)
    requires |data| > 0
    ensures [HeaderLine] + RowTexts(data[..|data| - 1]) + [RowText(data[|data| - 1])] == [HeaderLine] + RowTexts(data)
  {
    assert RowTexts(data[..|data| - 1]) + [RowText(data[|data| - 1])] == RowTexts(data);
  }

  /** A row without newlines in its fields has a text without newlines. */
  lemma RowTextFree(row: ComparisonRow)
    requires RowFree(row, '\n')
    ensures Free(RowText(row), '\n')
  {
  }

  /** Appending a newline-free line and a newline to a complete text adds that line. */
  lemma AppendLine(text: string, line: string, lines: seq<string>)
    requires Split(text, '\n') == lines + [""]
    requires Free(line, '\n')
    ensures Split(text + line + "\n", '\n') == lines + [line] + [""]
  {
    var parts := Split(text, '\n');
    SplitAppendFree(text, line, '\n');
    assert parts[..|parts| - 1] == lines && parts[|parts| - 1] + line == line;
    SplitAppendSep(text + line, '\n');
    assert text + line + "\n" == (text + line) + ['\n'];
  }

  lemma {:induction false} ParseRowTexts(data: seq<ComparisonRow>)
    requires forall k :: 0 <= k < |data| ==> CleanRow(data[k])
    ensures ParseRows(RowTexts(data)) == Some(data)
  {
    if |data| > 0 {
      var init, row := data[..|data| - 1], data[|data| - 1];
      ParseRowTexts(init);
      RowTextFields(row);
      assert RowTexts(data)[..|data| - 1] == RowTexts(init);
      assert init + [row] == data;
    }
  }

  /** A header line, some row lines and the final empty piece: `ParseTsv` reads the row lines. */
  lemma FramedLines(lines: seq<string>, rows: seq<string>)
    requires lines == [HeaderLine] + rows + [""]
    ensures |lines| >= 2 && lines[0] == HeaderLine && lines[|lines| - 1] == ""
    ensures lines[1..|lines| - 1] == rows
  {
  }

  /** Splitting the table on newlines and tabs recovers every tuple, in order. */
  lemma TsvRoundTrip(data: seq<ComparisonRow>)
    requires forall k :: 0 <= k < |data| ==> CleanRow(data[k])
    ensures ParseTsv(Tsv(data)) == Some(data)
  {
    TsvLines(data);
    FramedLines(Split(Tsv(data), '\n'), RowTexts(data));
    ParseRowTexts(data);
  }

  // ---------------------------------------------------------------------------
  // No escaping: a tab inside a field corrupts the row on read-back
  // ---------------------------------------------------------------------------

  lemma {:induction false} CountAppend(a: string, b: string, sep: char)
    ensures Count(a + b, sep) == Count(a, sep) + Count(b, sep)
  {
    if |b| == 0 {
      assert a + b == a;
    } else {
      CountAppend(a, b[..|b| - 1], sep);
      assert (a + b)[..|a + b| - 1] == a + b[..|b| - 1];
    }
  }

  lemma {:induction false} CountFree(s: string, sep: char)
    ensures Count(s, sep) == 0 <==> Free(s, sep)
  {
    if |s| > 0 {
      CountFree(s[..|s| - 1], sep);
      if Free(s[..|s| - 1], sep) && s[|s| - 1] != sep {
        assert forall i :: 0 <= i < |s| - 1 ==> s[i] == s[..|s| - 1][i];
      }
    }
  }

  /** A row's text holds two tabs more than its fields do. */
  lemma RowTextTabs(row: ComparisonRow)
    ensures Count(RowText(row), '\t') == Count(row.name, '\t') + Count(row.similarity, '\t') + Count(row.books, '\t') + 2
  {
    var tab := '\t';
    CountAppend(row.name, "\t", tab);
    CountAppend(row.name + "\t", row.similarity, tab);
    CountAppend(row.name + "\t" + row.similarity, "\t", tab);
    CountAppend(row.name + "\t" + row.similarity + "\t", row.books, tab);
    assert Count("\t", tab) == 1 by {
      assert "\t"[..0] == "";
    }
  }

  /** One line with other than three fields makes the whole list unreadable. */
  lemma {:induction false} ParseRowsRejects(lines: seq<string>, k: nat)
    requires k < |lines| && |Split(lines[k], '\t')| != 3
    ensures ParseRows(lines) == None
  {
    if k < |lines| - 1 {
      ParseRowsRejects(lines[..|lines| - 1], k);
    }
  }

  /**
   * A tab inside any field of any tuple (with newline-free fields) makes the
   * table unreadable: that row splits into more than three fields.
   */
  lemma TabInFieldBreaksRoundTrip(data: seq<ComparisonRow>, k: nat)
    requires forall j :: 0 <= j < |data| ==> RowFree(data[j], '\n')
    requires k < |data| && !RowFree(data[k], '\t')
    ensures ParseTsv(Tsv(data)) == None
  {
    TsvLines(data);
    FramedLines(Split(Tsv(data), '\n'), RowTexts(data));
    var row := data[k];
    RowTextTabs(row);
    CountFree(row.name, '\t');
    CountFree(row.similarity, '\t');
    CountFree(row.books, '\t');
    ParseRowsRejects(RowTexts(data), k);
  }

  /**
   * A newline inside a field is not escaped either: it moves the rest of the
   * row to a line of its own, so the table can read back as different tuples.
   */
  lemma NewlineInFieldMisreads()
    ensures ParseTsv(Tsv([ComparisonRow("x\ty", "1\n2", "p\tq")]))
            == Some([ComparisonRow("x", "y", "1"), ComparisonRow("2", "p", "q")])
  {
    var first, second := ComparisonRow("x", "y", "1"), ComparisonRow("2", "p", "q");
    var data := [ComparisonRow("x\ty", "1\n2", "p\tq")];
    assert data[..0] == [];
    assert Tsv(data) == Header + RowText(first) + "\n" + RowText(second) + "\n";
    HeaderLines();
    AppendLine(Header, RowText(first), [HeaderLine]);
    AppendLine(Header + RowText(first) + "\n", RowText(second), [HeaderLine, RowText(first)]);
    assert [HeaderLine] + [RowText(first)] == [HeaderLine, RowText(first)];
    FramedLines(Split(Tsv(data), '\n'), [RowText(first), RowText(second)]);
    ParseRowTexts([first, second]);
    assert RowTexts([first, second]) == [RowText(first), RowText(second)];
  }
}
