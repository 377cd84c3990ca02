/**
  * The parts of the analysis stage that do not depend on the language model: reading
  * the model's list of subtopics, and the early exit for an empty transcription.
  */
module Analysis {
  import opened Text

  // ===========================================================================
  // _parse_subtopics_response

  /** The stripped pieces longer than two characters, in order. */
  function LongPieces(pieces: seq<string>): (r: seq<string>)
    ensures |r| <= |pieces|
  {
    if pieces == [] then []
    else
      var s := Strip(pieces[0]);
      (if |s| > 2 then [s] else []) + LongPieces(pieces[1..])
  }

  /** The items of a response: its lines, with "-" counted as a line break too. */
  function SubtopicItems(raw: string): seq<string> {
    LongPieces(SplitOn(Replace(raw, "-", "\n"), '\n'))
  }

  /** `_parse_subtopics_response`: the items, or the whole response when no item
      qualifies, or nothing for an empty response. The result is empty exactly when the
      response is, and is either a list of proper items or the response itself. */
  function ParseSubtopicsResponse(raw: string): (r: seq<string>)
    ensures r == [] <==> raw == []
    ensures (forall x :: x in r ==> IsSubtopicItem(x)) || r == [raw]
  {
    SubtopicItemsShape(raw);
    var items := SubtopicItems(raw);
    if items != [] then items else if raw != [] then [raw] else []
  }

  /** An item as the response parser produces it: longer than two characters, stripped,
      and holding neither "-" nor a newline. */
  predicate IsSubtopicItem(x: string) {
    |x| > 2 && NoSpaceAtEnds(x) && '-' !in x && '\n' !in x
  }

  lemma StripKeepsOut(s: string, c: char)
    requires c !in s
    ensures c !in Strip(s)
  {
    StripFacts(s);
    var k := LeadingSpaces(s);
    var r := Strip(s);
    forall i | 0 <= i < |r| ensures r[i] != c {
      assert r[i] == s[k + i];
    }
  }

  lemma {:induction false} SplitOnKeepsOut(s: string, sep: char, c: char)
    requires c !in s
    ensures forall p :: p in SplitOn(s, sep) ==> c !in p
  {
    if s != [] {
      SplitOnKeepsOut(s[1..], sep, c);
      var rest := SplitOn(s[1..], sep);
      assert rest[0] in rest;
      if s[0] != sep {
        forall p | p in rest[1..] ensures p in rest {
        }
      }
    }
  }

  lemma {:induction false} LongPiecesFacts(pieces: seq<string>)
    requires forall p :: p in pieces ==> '-' !in p && '\n' !in p
    ensures forall x :: x in LongPieces(pieces) ==> IsSubtopicItem(x)
  {
    if pieces != [] {
      assert pieces[0] in pieces;
      forall p | p in pieces[1..] ensures '-' !in p && '\n' !in p {
        assert p in pieces;
      }
      LongPiecesFacts(pieces[1..]);
      StripFacts(pieces[0]);
      StripKeepsOut(pieces[0], '-');
      StripKeepsOut(pieces[0], '\n');
    }
  }

  lemma SubtopicItemsShape(raw: string)
    ensures forall x :: x in SubtopicItems(raw) ==> IsSubtopicItem(x)
  {
    var replaced := Replace(raw, "-", "\n");
    ReplaceChar(raw, '-', '\n');
    assert '-' !in replaced by {
      forall i | 0 <= i < |replaced| ensures replaced[i] != '-' {
      }
    }
    SplitOnKeepsOut(replaced, '\n', '-');
    LongPiecesFacts(SplitOn(replaced, '\n'));
  }

  lemma {:induction false} JoinKeepsOut(parts: seq<string>, sep: string, c: char)
    requires c !in sep && forall k :: 0 <= k < |parts| ==> c !in parts[k]
    ensures c !in Join(parts, sep)
  {
    if |parts| > 1 {
      JoinKeepsOut(parts[1..], sep, c);
      assert Join(parts, sep) == parts[0] + sep + Join(parts[1..], sep);
    }
  }

  lemma {:induction false} LongPiecesOfItems(items: seq<string>)
    requires forall k :: 0 <= k < |items| ==> IsSubtopicItem(items[k])
    ensures LongPieces(items) == items
  {
    if items != [] {
      StripIdentity(items[0]);
      LongPiecesOfItems(items[1..]);
    }
  }

  lemma ReplaceNoDash(s: string)
    requires '-' !in s
    ensures Replace(s, "-", "\n") == s
  {
    ReplaceChar(s, '-', '\n');
    var r := Replace(s, "-", "\n");
    forall i | 0 <= i < |s| ensures r[i] == s[i] {
    }
  }

  /** Items written one per line are read back as themselves. */
  lemma ParseSubtopicsJoin(items: seq<string>)
    requires items != []
    requires forall k :: 0 <= k < |items| ==> IsSubtopicItem(items[k])
    ensures ParseSubtopicsResponse(Join(items, "\n")) == items
  {
    var text := Join(items, "\n");
    JoinKeepsOut(items, "\n", '-');
    ReplaceNoDash(text);
    forall p | p in items ensures '\n' !in p {
      var k :| 0 <= k < |items| && items[k] == p;
    }
    SplitOnJoin(items, '\n');
    LongPiecesOfItems(items);
  }

  // ===========================================================================
  // analyze_llm

  /** What the analysis stage writes into the pipeline context. */
  datatype Findings = Findings(mainTopic: string, subtopics: seq<string>, truthStatementsMd: string)

  const NO_TRANSCRIPTION_FINDINGS := Findings("(No transcription)", [], "(No transcription.)")

  /** `analyze_llm`: an empty transcription gives fixed placeholders before any model is
      loaded; otherwise the findings come from the language model, given here as
      `fromModel`. */
  function AnalyzeLlm(transcription: string, fromModel: Findings): (r: Findings)
    ensures transcription == [] ==>
      r.mainTopic == "(No transcription)" && r.subtopics == [] && r.truthStatementsMd == "(No transcription.)"
    ensures transcription != [] ==> r == fromModel
  {
    if transcription == [] then NO_TRANSCRIPTION_FINDINGS else fromModel
  }
}
