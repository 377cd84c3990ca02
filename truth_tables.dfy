/**
  * The truth-statement tables of the analysis stage: reading the body rows of a
  * markdown table the model wrote, and merging the tables of all chunks into one,
  * keeping the first row of each truth statement.
  */
module TruthTables {

  import opened Wrappers
  import opened Text
  import opened StepsText

  /** The header line of a merged table, written in short pieces so that the verifier
      can read its characters. */
  const TRUTH_HEADER := "| Category " + "| Truth Statement " + "| Confidence " + "Score (1-5) " + "| Context/Quote |"
  /** One column of the separator line "| :--- | :--- | :--- | :--- |". */
  const SEPARATOR_CELL := " :--- "
  const SEPARATOR_CELLS := SEPARATOR_CELL + "|" + (SEPARATOR_CELL + "|" + (SEPARATOR_CELL + "|" + (SEPARATOR_CELL + "|")))
  const TRUTH_SEPARATOR := "|" + SEPARATOR_CELLS
  /** The line written in place of the rows when no truth statement was kept. */
  const NO_TRUTHS := "(No truth " + "statements " + "extracted.)"

  // ===========================================================================
  // _parse_truth_table_rows

  /** A full match of `:?-+:?`: dashes, optionally between colons. */
  predicate IsDashCell(c: string) {
    var a := if c != [] && c[0] == ':' then c[1..] else c;
    var b := if a != [] && a[|a| - 1] == ':' then a[..|a| - 1] else a;
    b != [] && forall i :: 0 <= i < |b| ==> b[i] == '-'
  }

  /** A line the separator pattern `^\|\s*:?-+:?\s*(\|\s*:?-+:?\s*)*\|?\s*$` matches: a
      pipe, then one or more pipe-separated dash cells (whitespace around them allowed),
      then possibly a closing pipe followed only by whitespace. */
  predicate IsSeparatorLine(line: string) {
    && line != [] && line[0] == '|'
    && var parts := SplitOn(line[1..], '|');
       || (forall i :: 0 <= i < |parts| ==> IsDashCell(Strip(parts[i])))
       || (&& |parts| >= 2 && Strip(parts[|parts| - 1]) == []
           && forall i :: 0 <= i < |parts| - 1 ==> IsDashCell(Strip(parts[i])))
  }

  /** A stripped line that `_parse_truth_table_rows` keeps: it starts with a pipe, is
      not a separator line and does not mention the header's column names. */
  predicate IsTableRow(line: string) {
    && line != []
    && StartsWith(line, "|")
    && !IsSeparatorLine(line)
    && !Contains(Lower(line), "category")
    && !Contains(Lower(line), "truth statement")
  }

  /** The stripped lines of `lines` that are table rows, in order. */
  function TableRows(lines: seq<string>): (r: seq<string>)
    ensures |r| <= |lines|
  {
    if lines == [] then []
    else
      var line := Strip(lines[0]);
      (if IsTableRow(line) then [line] else []) + TableRows(lines[1..])
  }

  /** The rows `_parse_truth_table_rows` returns for `md`. */
  function ParsedRows(md: string): seq<string> {
    TableRows(SplitLines(Strip(md)))
  }

  /** A row as `_parse_truth_table_rows` produces it: a table row that is stripped and
      holds no line break. */
  predicate ValidRow(row: string) {
    IsTableRow(row) && NoSpaceAtEnds(row) && NoLineBreaks(row)
  }

  /** A row is kept exactly when it is the stripped form of some line and a table row. */
  lemma {:induction false} TableRowsMember(lines: seq<string>, x: string)
    ensures x in TableRows(lines) <==> exists k :: 0 <= k < |lines| && x == Strip(lines[k]) && IsTableRow(x)
  {
    if lines != [] {
      TableRowsMember(lines[1..], x);
      if exists k :: 0 <= k < |lines| && x == Strip(lines[k]) && IsTableRow(x) {
        var k :| 0 <= k < |lines| && x == Strip(lines[k]) && IsTableRow(x);
        if k > 0 {
          assert x == Strip(lines[1..][k - 1]);
        }
      }
      if x in TableRows(lines[1..]) {
        var k :| 0 <= k < |lines[1..]| && x == Strip(lines[1..][k]) && IsTableRow(x);
        assert x == Strip(lines[k + 1]);
      }
    }
  }

  /** Stripping keeps a line free of line breaks. */
  lemma StripNoLineBreaks(s: string)
    requires NoLineBreaks(s)
    ensures NoLineBreaks(Strip(s))
  {
    StripFacts(s);
    var r := Strip(s);
    var k := LeadingSpaces(s);
    forall i | 0 <= i < |r| ensures !IsLineBreak(r[i]) {
      assert r[i] == s[k + i];
    }
  }

  /** Every row read from a table is stripped, breaks no line and is a table row. */
  lemma ParsedRowsValid(md: string)
    ensures forall x :: x in ParsedRows(md) ==> ValidRow(x)
  {
    var lines := SplitLines(Strip(md));
    forall x | x in TableRows(lines) ensures ValidRow(x) {
      TableRowsMember(lines, x);
      var k :| 0 <= k < |lines| && x == Strip(lines[k]) && IsTableRow(x);
      assert lines[k] in lines;
      StripFacts(lines[k]);
      StripNoLineBreaks(lines[k]);
    }
  }

  lemma {:induction false} TableRowsAppend(a: seq<string>, b: seq<string>)
    ensures TableRows(a + b) == TableRows(a) + TableRows(b)
  {
    if a == [] {
      assert a + b == b;
    } else {
      var head := if IsTableRow(Strip(a[0])) then [Strip(a[0])] else [];
      assert (a + b)[0] == a[0] && (a + b)[1..] == a[1..] + b;
      assert TableRows(a + b) == head + TableRows(a[1..] + b);
      TableRowsAppend(a[1..], b);
      assert head + (TableRows(a[1..]) + TableRows(b)) == (head + TableRows(a[1..])) + TableRows(b);
    }
  }

  lemma TableRowsPrefix(lines: seq<string>, k: nat)
    requires k < |lines|
    ensures TableRows(lines[..k + 1]) ==
      TableRows(lines[..k]) + (if IsTableRow(Strip(lines[k])) then [Strip(lines[k])] else [])
  {
    assert lines[..k + 1] == lines[..k] + [lines[k]];
    TableRowsAppend(lines[..k], [lines[k]]);
    assert [lines[k]][1..] == [];
  }

  /** The loop of `_parse_truth_table_rows` over the lines of the table. */
  method TableRowsOf(lines: seq<string>) returns (rows: seq<string>)
    ensures rows == TableRows(lines)
  {
    rows := [];
    var k := 0;
    while k < |lines|
      invariant 0 <= k <= |lines|
      invariant rows == TableRows(lines[..k])
    {
      TableRowsPrefix(lines, k);
      var line := Strip(lines[k]);
      if IsTableRow(line) {
        rows := rows + [line];
      }
      k := k + 1;
    }
    assert lines[..k] == lines;
  }

  /** `_parse_truth_table_rows`. */
  method ParseTruthTableRows(md: string) returns (rows: seq<string>)
    ensures rows == ParsedRows(md)
  {
    rows := TableRowsOf(SplitLines(Strip(md)));
  }

  // ===========================================================================
  // _merge_dedup_truth_md

  /** `[p.strip() for p in row.split("|") if p.strip()]`. */
  function Cells(row: string): seq<string> {
    NonBlankStripped(SplitOn(row, '|'))
  }

  /** The normalised truth statement of a row (its second cell), when it has one. */
  function StatementOf(row: string): Option<string> {
    var parts := Cells(row);
    if |parts| >= 2 then Some(Normalize(parts[1])) else None
  }

  /** The rows kept from `rows` when the statements in `seen` have been kept already: a
      row with a statement is kept when that statement is new and not empty, a row without
      one when it is not blank. `stmt` stands for `StatementOf`. */
  function DedupRows(rows: seq<string>, seen: set<string>, stmt: string -> Option<string>): (r: seq<string>)
    ensures |r| <= |rows|
  {
    if rows == [] then []
    else
      match stmt(rows[0])
      case Some(k) =>
        if k != [] && k !in seen then [rows[0]] + DedupRows(rows[1..], seen + {k}, stmt)
        else DedupRows(rows[1..], seen, stmt)
      case None =>
        if Strip(rows[0]) != [] then [rows[0]] + DedupRows(rows[1..], seen, stmt)
        else DedupRows(rows[1..], seen, stmt)
  }

  /** What a merged table may hold: rows whose statements are non-empty, pairwise distinct
      and not in `seen`, and rows without statement that are not blank. */
  predicate Deduplicated(rows: seq<string>, seen: set<string>, stmt: string -> Option<string>) {
    && (forall i :: 0 <= i < |rows| ==> stmt(rows[i]).None? ==> Strip(rows[i]) != [])
    && (forall i :: 0 <= i < |rows| ==> stmt(rows[i]).Some? ==>
          stmt(rows[i]).value != [] && stmt(rows[i]).value !in seen)
    && (forall i, j :: 0 <= i < j < |rows| && stmt(rows[i]).Some? && stmt(rows[j]).Some? ==>
          stmt(rows[i]).value != stmt(rows[j]).value)
  }

  lemma DeduplicatedCons(x: string, rows: seq<string>, seen: set<string>, stmt: string -> Option<string>)
    requires Deduplicated([x] + rows, seen, stmt)
    ensures stmt(x).None? ==> Strip(x) != [] && Deduplicated(rows, seen, stmt)
    ensures stmt(x).Some? ==> stmt(x).value != [] && stmt(x).value !in seen
    ensures stmt(x).Some? ==> Deduplicated(rows, seen + {stmt(x).value}, stmt)
  {
    var all := [x] + rows;
    assert all[0] == x;
    forall i | 0 <= i < |rows| ensures rows[i] == all[i + 1] {
    }
    if stmt(x).Some? {
      forall i | 0 <= i < |rows| && stmt(rows[i]).Some? ensures stmt(rows[i]).value != stmt(x).value {
        assert all[i + 1] == rows[i];
      }
    }
  }

  lemma DeduplicatedExtend(x: string, rows: seq<string>, seen: set<string>, stmt: string -> Option<string>)
    requires stmt(x).None? ==> Strip(x) != []
    requires stmt(x).Some? ==> stmt(x).value != [] && stmt(x).value !in seen
    requires stmt(x).Some? ==> Deduplicated(rows, seen + {stmt(x).value}, stmt)
    requires stmt(x).None? ==> Deduplicated(rows, seen, stmt)
    ensures Deduplicated([x] + rows, seen, stmt)
  {
    var all := [x] + rows;
    forall i | 1 <= i < |all| ensures all[i] == rows[i - 1] {
    }
  }

  /** The kept rows are deduplicated. */
  lemma {:induction false} DedupRowsDeduplicated(rows: seq<string>, seen: set<string>, stmt: string -> Option<string>)
    ensures Deduplicated(DedupRows(rows, seen, stmt), seen, stmt)
  {
    if rows != [] {
      var x := rows[0];
      match stmt(x)
      case Some(k) =>
        if k != [] && k !in seen {
          DedupRowsDeduplicated(rows[1..], seen + {k}, stmt);
          DeduplicatedWeaken(DedupRows(rows[1..], seen + {k}, stmt), seen + {k}, seen + {k}, stmt);
          DeduplicatedExtend(x, DedupRows(rows[1..], seen + {k}, stmt), seen, stmt);
        } else {
          DedupRowsDeduplicated(rows[1..], seen, stmt);
        }
      case None =>
        DedupRowsDeduplicated(rows[1..], seen, stmt);
        if Strip(x) != [] {
          DeduplicatedExtend(x, DedupRows(rows[1..], seen, stmt), seen, stmt);
        }
    }
  }

  lemma DeduplicatedWeaken(rows: seq<string>, seen: set<string>, smaller: set<string>, stmt: string -> Option<string>)
    requires Deduplicated(rows, seen, stmt) && smaller <= seen
    ensures Deduplicated(rows, smaller, stmt)
  {
  }

  /** Every kept row is an input row. */
  lemma {:induction false} DedupRowsFromInput(rows: seq<string>, seen: set<string>, stmt: string -> Option<string>, x: string)
    requires x in DedupRows(rows, seen, stmt)
    ensures x in rows
  {
    var k := stmt(rows[0]);
    if x != rows[0] {
      if k.Some? && k.value != [] && k.value !in seen {
        DedupRowsFromInput(rows[1..], seen + {k.value}, stmt, x);
      } else {
        DedupRowsFromInput(rows[1..], seen, stmt, x);
      }
    }
  }

  /** Nothing is lost: a row with a non-empty statement not seen before is represented by
      a kept row with the same statement, and a non-blank row without one is kept. */
  lemma {:induction false} DedupRowsComplete(rows: seq<string>, seen: set<string>, stmt: string -> Option<string>, x: string)
    requires x in rows
    ensures stmt(x).Some? && stmt(x).value != [] && stmt(x).value !in seen ==>
      exists y :: y in DedupRows(rows, seen, stmt) && stmt(y) == stmt(x)
    ensures stmt(x).None? && Strip(x) != [] ==> x in DedupRows(rows, seen, stmt)
  {
    var r := DedupRows(rows, seen, stmt);
    var k := stmt(rows[0]);
    if k.Some? && k.value != [] && k.value !in seen {
      assert r == [rows[0]] + DedupRows(rows[1..], seen + {k.value}, stmt);
      if x != rows[0] {
        DedupRowsComplete(rows[1..], seen + {k.value}, stmt, x);
        if stmt(x).Some? && stmt(x).value != [] && stmt(x).value !in seen && stmt(x).value != k.value {
          var y :| y in DedupRows(rows[1..], seen + {k.value}, stmt) && stmt(y) == stmt(x);
          assert y in r;
        }
      }
      assert rows[0] in r;
    } else if k.None? && Strip(rows[0]) != [] {
      assert r == [rows[0]] + DedupRows(rows[1..], seen, stmt);
      if x != rows[0] {
        DedupRowsComplete(rows[1..], seen, stmt, x);
        if stmt(x).Some? && stmt(x).value != [] && stmt(x).value !in seen {
          var y :| y in DedupRows(rows[1..], seen, stmt) && stmt(y) == stmt(x);
          assert y in r;
        }
      }
    } else if x != rows[0] {
      DedupRowsComplete(rows[1..], seen, stmt, x);
    }
  }

  /** Deduplicating rows that are already deduplicated changes nothing. */
  lemma {:induction false} DedupRowsIdempotent(rows: seq<string>, seen: set<string>, stmt: string -> Option<string>)
    requires Deduplicated(rows, seen, stmt)
    ensures DedupRows(rows, seen, stmt) == rows
  {
    if rows != [] {
      var x := rows[0];
      assert rows == [x] + rows[1..];
      DeduplicatedCons(x, rows[1..], seen, stmt);
      if stmt(x).Some? {
        DedupRowsIdempotent(rows[1..], seen + {stmt(x).value}, stmt);
      } else {
        DedupRowsIdempotent(rows[1..], seen, stmt);
      }
    }
  }

  /** The rows of all tables, in order. */
  function AllRows(tables: seq<string>): seq<string> {
    if tables == [] then [] else ParsedRows(tables[0]) + AllRows(tables[1..])
  }

  lemma {:induction false} AllRowsValid(tables: seq<string>)
    ensures forall x :: x in AllRows(tables) ==> ValidRow(x)
  {
    if tables != [] {
      ParsedRowsValid(tables[0]);
      AllRowsValid(tables[1..]);
    }
  }

  /** The rows `_merge_dedup_truth_md` keeps from `tables`. */
  function KeptRows(tables: seq<string>): seq<string> {
    DedupRows(AllRows(tables), {}, StatementOf)
  }

  /** The markdown `_merge_dedup_truth_md` writes for the kept rows. */
  function TruthMarkdown(rows: seq<string>): string {
    if rows == [] then TRUTH_HEADER + "\n" + TRUTH_SEPARATOR + "\n" + NO_TRUTHS
    else TRUTH_HEADER + "\n" + TRUTH_SEPARATOR + "\n" + Join(rows, "\n")
  }

  /** What `_merge_dedup_truth_md` returns for `tables`. */
  function MergedTruth(tables: seq<string>): string {
    TruthMarkdown(KeptRows(tables))
  }

  /** The rows of the merged table are rows of the input tables, are valid rows, and have
      non-empty, pairwise distinct truth statements (or, lacking one, are not blank); and
      every truth statement of the input is represented. */
  lemma KeptRowsFacts(tables: seq<string>)
    ensures var kept := KeptRows(tables);
      && Deduplicated(kept, {}, StatementOf)
      && (forall x :: x in kept ==> x in AllRows(tables) && ValidRow(x))
      && (forall x :: x in AllRows(tables) && StatementOf(x).Some? && StatementOf(x).value != [] ==>
            exists y :: y in kept && StatementOf(y) == StatementOf(x))
      && (forall x :: x in AllRows(tables) && StatementOf(x).None? ==> x in kept)
  {
    var all := AllRows(tables);
    var kept := KeptRows(tables);
    DedupRowsDeduplicated(all, {}, StatementOf);
    AllRowsValid(tables);
    forall x | x in kept ensures x in all && ValidRow(x) {
      DedupRowsFromInput(all, {}, StatementOf, x);
    }
    forall x | x in all
      ensures StatementOf(x).Some? && StatementOf(x).value != [] ==>
        exists y :: y in kept && StatementOf(y) == StatementOf(x)
      ensures StatementOf(x).None? ==> x in kept
    {
      DedupRowsComplete(all, {}, StatementOf, x);
      assert ValidRow(x);
    }
  }

  // ---------------------------------------------------------------------------
  // the fixed lines of a merged table

  predicate PrintableAscii(s: string) {
    forall i :: 0 <= i < |s| ==> ' ' <= s[i] <= '~'
  }

  lemma PrintablePiece(s: string)
    requires forall c :: c in s ==> ' ' <= c <= '~'
    ensures PrintableAscii(s)
  {
    forall i | 0 <= i < |s| ensures ' ' <= s[i] <= '~' {
      assert s[i] in s;
    }
  }

  lemma PrintableConcat(a: string, b: string)
    requires PrintableAscii(a) && PrintableAscii(b)
    ensures PrintableAscii(a + b)
  {
    forall i | |a| <= i < |a + b| ensures ' ' <= (a + b)[i] <= '~' {
      assert (a + b)[i] == b[i - |a|];
    }
  }

  lemma PrintableNoLineBreaks(s: string)
    requires PrintableAscii(s)
    ensures NoLineBreaks(s)
  {
  }

  /** `s.strip()` of a non-blank text with one space on each side. */
  lemma StripPadded(c: string)
    requires c != [] && NoSpaceAtEnds(c)
    ensures Strip(" " + c + " ") == c
  {
    var s := " " + c + " ";
    assert s[1..] == c + " ";
    assert LeadingSpaces(c + " ") == 0;
    assert LeadingSpaces(s) == 1;
    assert (c + " ")[..|c|] == c;
    assert TrailingStart(c) == |c|;
    assert TrailingStart(c + " ") == |c|;
  }

  lemma HeaderClean()
    ensures TRUTH_HEADER != [] && TRUTH_HEADER[0] == '|'
    ensures NoSpaceAtEnds(TRUTH_HEADER) && NoLineBreaks(TRUTH_HEADER)
  {
    PrintablePiece("| Category ");
    PrintablePiece("| Truth Statement ");
    PrintablePiece("| Confidence ");
    PrintablePiece("Score (1-5) ");
    PrintablePiece("| Context/Quote |");
    PrintableConcat("| Category ", "| Truth Statement ");
    PrintableConcat("| Category " + "| Truth Statement ", "| Confidence ");
    PrintableConcat("| Category " + "| Truth Statement " + "| Confidence ", "Score (1-5) ");
    PrintableConcat("| Category " + "| Truth Statement " + "| Confidence " + "Score (1-5) ", "| Context/Quote |");
  }

  /** The header line names the "Category" column, so it is never read as a row. */
  lemma HeaderNotRow()
    ensures !IsTableRow(TRUTH_HEADER)
  {
    var low := Lower(TRUTH_HEADER);
    assert low[2] == 'c' && low[3] == 'a' && low[4] == 't' && low[5] == 'e';
    assert low[6] == 'g' && low[7] == 'o' && low[8] == 'r' && low[9] == 'y';
    assert low[2..10] == "category";
    ContainsAt(low, "category", 2);
  }

  lemma SeparatorClean()
    ensures TRUTH_SEPARATOR != [] && TRUTH_SEPARATOR[0] == '|'
    ensures NoSpaceAtEnds(TRUTH_SEPARATOR) && NoLineBreaks(TRUTH_SEPARATOR)
  {
    var c := SEPARATOR_CELL;
    PrintablePiece("|");
    PrintablePiece(c);
    PrintableConcat(c, "|");
    PrintableConcat(c, "|" + (c + "|"));
    PrintableConcat(c + "|", c + "|");
    PrintableConcat(c, "|" + (c + "|" + (c + "|")));
    PrintableConcat(c + "|", c + "|" + (c + "|"));
    PrintableConcat(c, "|" + (c + "|" + (c + "|" + (c + "|"))));
    PrintableConcat(c + "|", c + "|" + (c + "|" + (c + "|")));
    PrintableConcat("|", SEPARATOR_CELLS);
  }

  lemma SeparatorParts()
    ensures SplitOn(TRUTH_SEPARATOR[1..], '|') == [SEPARATOR_CELL, SEPARATOR_CELL, SEPARATOR_CELL, SEPARATOR_CELL, []]
  {
    var c := SEPARATOR_CELL;
    assert TRUTH_SEPARATOR[1..] == SEPARATOR_CELLS;
    SplitOnPrefix(c, c + "|" + (c + "|" + (c + "|")), '|');
    SplitOnPrefix(c, c + "|" + (c + "|"), '|');
    SplitOnPrefix(c, c + "|", '|');
    SplitOnPrefix(c, [], '|');
    assert c + "|" == c + "|" + [];
  }

  lemma SeparatorCellIsDash()
    ensures IsDashCell(Strip(SEPARATOR_CELL))
  {
    StripPadded(":---");
    assert IsDashCell(":---");
  }

  /** The separator line written by the merge is one the separator pattern matches, so
      it is never read as a row. */
  lemma SeparatorNotRow()
    ensures IsSeparatorLine(TRUTH_SEPARATOR) && !IsTableRow(TRUTH_SEPARATOR)
  {
    SeparatorClean();
    SeparatorParts();
    SeparatorCellIsDash();
    var parts := SplitOn(TRUTH_SEPARATOR[1..], '|');
    assert Strip(parts[4]) == [];
    forall i | 0 <= i < |parts| - 1 ensures IsDashCell(Strip(parts[i])) {
      assert parts[i] == SEPARATOR_CELL;
    }
  }

  lemma PlaceholderFacts()
    ensures NO_TRUTHS != [] && NO_TRUTHS[0] == '('
    ensures NoSpaceAtEnds(NO_TRUTHS) && NoLineBreaks(NO_TRUTHS)
  {
    PrintablePiece("(No truth ");
    PrintablePiece("statements ");
    PrintablePiece("extracted.)");
    PrintableConcat("(No truth ", "statements ");
    PrintableConcat("(No truth " + "statements ", "extracted.)");
  }

  /** The merged table always starts with the fixed header and separator lines, and holds
      the placeholder line exactly when no row was kept. */
  lemma TruthMarkdownShape(rows: seq<string>)
    requires forall k :: 0 <= k < |rows| ==> ValidRow(rows[k])
    ensures StartsWith(TruthMarkdown(rows), TRUTH_HEADER + "\n" + TRUTH_SEPARATOR + "\n")
    ensures rows == [] <==> TruthMarkdown(rows) == TRUTH_HEADER + "\n" + TRUTH_SEPARATOR + "\n" + NO_TRUTHS
  {
    var prefix := TRUTH_HEADER + "\n" + TRUTH_SEPARATOR + "\n";
    assert TruthMarkdown(rows)[..|prefix|] == prefix;
    if rows != [] {
      PlaceholderFacts();
      JoinFirst(rows, "\n");
      assert TruthMarkdown(rows)[|prefix|] == '|';
    }
  }

  // ---------------------------------------------------------------------------
  // reading a merged table back

  /** A line a merged table writes besides its rows: non-empty, stripped, unbroken and
      never read as a row. */
  predicate FixedLine(s: string) {
    s != [] && NoSpaceAtEnds(s) && NoLineBreaks(s) && !IsTableRow(s)
  }

  lemma FixedLinesOk()
    ensures FixedLine(TRUTH_HEADER) && FixedLine(TRUTH_SEPARATOR) && FixedLine(NO_TRUTHS)
  {
    HeaderClean();
    HeaderNotRow();
    SeparatorClean();
    SeparatorNotRow();
    PlaceholderFacts();
  }

  /** The lines written before the rows: header and separator, and the placeholder when
      there is no row. */
  function TruthPrefix(rows: seq<string>): seq<string> {
    if rows == [] then [TRUTH_HEADER, TRUTH_SEPARATOR, NO_TRUTHS] else [TRUTH_HEADER, TRUTH_SEPARATOR]
  }

  lemma TruthPrefixFixed(rows: seq<string>)
    ensures var pre := TruthPrefix(rows); forall k :: 0 <= k < |pre| ==> FixedLine(pre[k])
  {
    FixedLinesOk();
  }

  lemma TruthMarkdownLines(rows: seq<string>)
    ensures TruthMarkdown(rows) == Join(TruthPrefix(rows) + rows, "\n")
  {
    var head := [TRUTH_HEADER, TRUTH_SEPARATOR];
    var tail := if rows == [] then [NO_TRUTHS] else rows;
    assert TruthPrefix(rows) + rows == head + tail;
    JoinAppend(head, tail, "\n");
    assert head[1..] == [TRUTH_SEPARATOR];
    assert Join(head, "\n") == TRUTH_HEADER + "\n" + TRUTH_SEPARATOR;
    assert Join(tail, "\n") == if rows == [] then NO_TRUTHS else Join(rows, "\n");
  }

  /** Fixed lines followed by valid rows are non-empty, unbroken and stripped. */
  lemma CleanLines(pre: seq<string>, rows: seq<string>)
    requires forall k :: 0 <= k < |pre| ==> FixedLine(pre[k])
    requires forall k :: 0 <= k < |rows| ==> ValidRow(rows[k])
    ensures var lines := pre + rows;
      forall k :: 0 <= k < |lines| ==> lines[k] != [] && NoLineBreaks(lines[k]) && NoSpaceAtEnds(lines[k])
  {
    var lines := pre + rows;
    forall k | 0 <= k < |lines|
      ensures lines[k] != [] && NoLineBreaks(lines[k]) && NoSpaceAtEnds(lines[k])
    {
      if k >= |pre| {
        assert lines[k] == rows[k - |pre|];
      }
    }
  }

  /** Valid rows read back as themselves. */
  lemma {:induction false} TableRowsOfRows(rows: seq<string>)
    requires forall k :: 0 <= k < |rows| ==> ValidRow(rows[k])
    ensures TableRows(rows) == rows
  {
    if rows != [] {
      StripIdentity(rows[0]);
      TableRowsOfRows(rows[1..]);
    }
  }

  /** Fixed lines followed by valid rows read back as the rows. */
  lemma {:induction false} TableRowsAfterFixed(pre: seq<string>, rows: seq<string>)
    requires forall k :: 0 <= k < |pre| ==> FixedLine(pre[k])
    requires forall k :: 0 <= k < |rows| ==> ValidRow(rows[k])
    ensures TableRows(pre + rows) == rows
  {
    if pre == [] {
      assert pre + rows == rows;
      TableRowsOfRows(rows);
    } else {
      assert (pre + rows)[0] == pre[0] && (pre + rows)[1..] == pre[1..] + rows;
      StripIdentity(pre[0]);
      TableRowsAfterFixed(pre[1..], rows);
    }
  }

  /** Text joined from lines that are non-empty, unbroken and stripped is stripped. */
  lemma JoinedLinesStripped(lines: seq<string>)
    requires lines != []
    requires forall k :: 0 <= k < |lines| ==> lines[k] != [] && NoLineBreaks(lines[k]) && NoSpaceAtEnds(lines[k])
    ensures Strip(Join(lines, "\n")) == Join(lines, "\n")
  {
    JoinFirst(lines, "\n");
    JoinLast(lines, "\n");
    StripIdentity(Join(lines, "\n"));
  }

  /** Reading the merged table back yields exactly the kept rows. */
  lemma ParseTruthMarkdown(rows: seq<string>)
    requires forall k :: 0 <= k < |rows| ==> ValidRow(rows[k])
    ensures ParsedRows(TruthMarkdown(rows)) == rows
  {
    var pre := TruthPrefix(rows);
    TruthPrefixFixed(rows);
    TruthMarkdownLines(rows);
    CleanLines(pre, rows);
    JoinedLinesStripped(pre + rows);
    SplitLinesJoin(pre + rows);
    TableRowsAfterFixed(pre, rows);
  }

  /** Merging a merged table again gives it back unchanged. */
  lemma MergedTruthIdempotent(tables: seq<string>)
    ensures MergedTruth([MergedTruth(tables)]) == MergedTruth(tables)
  {
    var kept := KeptRows(tables);
    KeptRowsFacts(tables);
    assert forall k :: 0 <= k < |kept| ==> ValidRow(kept[k]) by {
      forall k | 0 <= k < |kept| ensures ValidRow(kept[k]) {
        assert kept[k] in kept;
      }
    }
    ParseTruthMarkdown(kept);
    assert AllRows([MergedTruth(tables)]) == kept + [];
    assert kept + [] == kept;
    DedupRowsIdempotent(kept, {}, StatementOf);
  }

  // ---------------------------------------------------------------------------
  // the merge loop

  lemma DedupRowsStep(acc: seq<string>, rows: seq<string>, seen: set<string>,
                      stmt: string -> Option<string>, target: seq<string>)
    requires rows != [] && acc + DedupRows(rows, seen, stmt) == target
    ensures match stmt(rows[0])
      case Some(k) =>
        if k != [] && k !in seen then (acc + [rows[0]]) + DedupRows(rows[1..], seen + {k}, stmt) == target
        else acc + DedupRows(rows[1..], seen, stmt) == target
      case None =>
        if Strip(rows[0]) != [] then (acc + [rows[0]]) + DedupRows(rows[1..], seen, stmt) == target
        else acc + DedupRows(rows[1..], seen, stmt) == target
  {
  }

  /** The inner loop of `_merge_dedup_truth_md`: the rows of one table. */
  method MergeTableRows(rows: seq<string>, ghost later: seq<string>, seen: set<string>,
                        acc: seq<string>, ghost target: seq<string>)
    returns (seen': set<string>, acc': seq<string>)
    requires acc + DedupRows(rows + later, seen, StatementOf) == target
    ensures acc' + DedupRows(later, seen', StatementOf) == target
  {
    seen', acc' := seen, acc;
    ghost var todo := rows + later;
    var j := 0;
    while j < |rows|
      invariant 0 <= j <= |rows| && todo == rows[j..] + later
      invariant acc' + DedupRows(todo, seen', StatementOf) == target
    {
      var row := rows[j];
      assert todo[0] == row && todo[1..] == rows[j + 1..] + later;
      DedupRowsStep(acc', todo, seen', StatementOf, target);
      var parts := Cells(row);
      if |parts| >= 2 {
        var stmt := Normalize(parts[1]);
        if stmt != [] && stmt !in seen' {
          seen' := seen' + {stmt};
          acc' := acc' + [row];
        }
      } else if Strip(row) != [] {
        acc' := acc' + [row];
      }
      todo := todo[1..];
      j := j + 1;
    }
    assert rows[j..] + later == later;
  }

  /** `_merge_dedup_truth_md`. */
  method MergeDedupTruthMd(tables: seq<string>) returns (md: string)
    ensures md == MergedTruth(tables)
  {
    ghost var target := KeptRows(tables);
    var seen: set<string> := {};
    var allRows: seq<string> := [];
    var i := 0;
    while i < |tables|
      invariant 0 <= i <= |tables|
      invariant allRows + DedupRows(AllRows(tables[i..]), seen, StatementOf) == target
    {
      assert tables[i..][0] == tables[i] && tables[i..][1..] == tables[i + 1..];
      assert AllRows(tables[i..]) == ParsedRows(tables[i]) + AllRows(tables[i + 1..]);
      var rows := ParseTruthTableRows(tables[i]);
      seen, allRows := MergeTableRows(rows, AllRows(tables[i + 1..]), seen, allRows, target);
      i := i + 1;
    }
    assert tables[i..] == [];
    assert allRows == target;
    if allRows == [] {
      md := TRUTH_HEADER + "\n" + TRUTH_SEPARATOR + "\n" + NO_TRUTHS;
    } else {
      md := TRUTH_HEADER + "\n" + TRUTH_SEPARATOR + "\n" + Join(allRows, "\n");
    }
  }
}
