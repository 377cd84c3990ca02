/**
  * Turning the chunks the speech recogniser returns into transcript segments: blank
  * chunks are dropped, consecutive segments are grouped greedily until a group would
  * reach the minimum number of words, each group becomes one segment whose text joins
  * the parts with ", ", and a short last segment is folded into the one before it.
  */
module Segments {
  import opened Wrappers
  import opened Text
  import opened StepsText

  /** A transcript segment: start and end in seconds, and its text. */
  datatype Segment = Segment(start: real, end: real, text: string)

  /** The "timestamp" entry of a recogniser chunk. */
  datatype Stamp =
    | Missing                    // absent, or a falsy value such as None
    | Pair(from: real, to: real) // a list or tuple whose first two entries `float()` reads
    | NotASequence               // a truthy value that is neither a list nor a tuple
    | Unreadable                 // a non-empty list or tuple with fewer than two entries, or
                                 // one of whose first two entries `float()` refuses (None, say)

  /** A recogniser chunk; `text` is None when the entry is absent or None. */
  datatype RecognisedChunk = RecognisedChunk(timestamp: Stamp, text: Option<string>)

  /** The segment a readable chunk contributes: its timestamps (0.0 unless a pair is
      given) and its stripped text, or nothing when that text is blank. */
  function SegmentOf(c: RecognisedChunk): Option<Segment> {
    var t := Strip(c.text.GetOr(""));
    if t == [] then None
    else
      match c.timestamp
      case Pair(a, b) => Some(Segment(a, b, t))
      case _ => Some(Segment(0.0, 0.0, t))
  }

  /** The position of the first chunk whose timestamp `float()` or indexing refuses. */
  function FirstUnreadable(chunks: seq<RecognisedChunk>): (r: Option<nat>)
    ensures r.Some? ==> r.value < |chunks| && chunks[r.value].timestamp.Unreadable?
    ensures r.Some? ==> forall k :: 0 <= k < r.value ==> !chunks[k].timestamp.Unreadable?
    ensures r.None? ==> forall k :: 0 <= k < |chunks| ==> !chunks[k].timestamp.Unreadable?
  {
    if chunks == [] then None
    else if chunks[0].timestamp.Unreadable? then Some(0)
    else match FirstUnreadable(chunks[1..])
      case Some(k) => Some(k + 1)
      case None => None
  }

  /** The first loop of `_merge_segments_by_min_words`: the segments of the non-blank
      chunks, or the position of the chunk whose timestamp makes it raise. */
  function ReadSegments(chunks: seq<RecognisedChunk>): (r: Result<seq<Segment>, nat>)
    ensures r.Err? <==> exists k :: 0 <= k < |chunks| && chunks[k].timestamp.Unreadable?
    ensures r.Err? ==> r.error < |chunks| && chunks[r.error].timestamp.Unreadable?
  {
    match FirstUnreadable(chunks)
    case Some(k) => Err(k)
    case None => Ok(RawSegments(chunks))
  }

  /** The segments of the non-blank chunks, in order. */
  function RawSegments(chunks: seq<RecognisedChunk>): (r: seq<Segment>)
    ensures |r| <= |chunks|
  {
    if chunks == [] then []
    else
      var last := chunks[|chunks| - 1];
      RawSegments(chunks[..|chunks| - 1]) + Listed(SegmentOf(last))
  }

  /** The segment a chunk yields, as a list of zero or one segments. */
  function Listed(o: Option<Segment>): (r: seq<Segment>)
    ensures forall x :: x in r <==> o == Some(x)
  {
    match o
    case Some(s) => [s]
    case None => []
  }

  /** Segments whose texts are stripped and not blank. */
  predicate TrimmedSegments(segs: seq<Segment>) {
    forall k :: 0 <= k < |segs| ==> IsTrimmedText(segs[k].text)
  }

  lemma SegmentOfTrimmed(c: RecognisedChunk)
    ensures SegmentOf(c).Some? ==> IsTrimmedText(SegmentOf(c).value.text)
  {
    StripFacts(c.text.GetOr(""));
  }

  /** A segment is kept exactly when some chunk yields it, and every kept text is stripped
      and non-blank. */
  lemma {:induction false} RawSegmentsMember(chunks: seq<RecognisedChunk>, x: Segment)
    ensures x in RawSegments(chunks) <==> exists k :: 0 <= k < |chunks| && SegmentOf(chunks[k]) == Some(x)
  {
    if chunks != [] {
      var init := chunks[..|chunks| - 1];
      var last := chunks[|chunks| - 1];
      assert x in RawSegments(chunks) <==> x in RawSegments(init) || SegmentOf(last) == Some(x);
      RawSegmentsMember(init, x);
      if exists k :: 0 <= k < |chunks| && SegmentOf(chunks[k]) == Some(x) {
        var k :| 0 <= k < |chunks| && SegmentOf(chunks[k]) == Some(x);
        if k < |chunks| - 1 {
          assert init[k] == chunks[k];
        }
      }
      if x in RawSegments(init) {
        var k :| 0 <= k < |init| && SegmentOf(init[k]) == Some(x);
        assert chunks[k] == init[k];
      }
    }
  }

  lemma RawSegmentsTrimmed(chunks: seq<RecognisedChunk>)
    ensures TrimmedSegments(RawSegments(chunks))
  {
    var raw := RawSegments(chunks);
    forall i | 0 <= i < |raw| ensures IsTrimmedText(raw[i].text) {
      assert raw[i] in raw;
      RawSegmentsMember(chunks, raw[i]);
      var k :| 0 <= k < |chunks| && SegmentOf(chunks[k]) == Some(raw[i]);
      SegmentOfTrimmed(chunks[k]);
    }
  }

  lemma RawSegmentsSnoc(chunks: seq<RecognisedChunk>, i: nat)
    requires i < |chunks|
    ensures RawSegments(chunks[..i + 1]) == RawSegments(chunks[..i]) + Listed(SegmentOf(chunks[i]))
  {
    assert chunks[..i + 1][..i] == chunks[..i];
  }

  /** One iteration of the first loop: an unreadable timestamp raises, whether or not the
      text is blank; otherwise the chunk's times, or zeros, and its stripped text, kept
      only when not blank. */
  method ReadChunk(c: RecognisedChunk) returns (seg: Result<Option<Segment>, ()>)
    ensures seg.Err? <==> c.timestamp.Unreadable?
    ensures seg.Ok? ==> seg.value == SegmentOf(c)
  {
    if c.timestamp.Unreadable? {
      return Err(());
    }
    var start, end := 0.0, 0.0;
    if c.timestamp.Pair? {
      start, end := c.timestamp.from, c.timestamp.to;
    }
    var segText := Strip(c.text.GetOr(""));
    seg := Ok(if segText != [] then Some(Segment(start, end, segText)) else None);
  }

  /** The first loop of `_merge_segments_by_min_words`: it raises at the first chunk with
      an unreadable timestamp, and otherwise keeps the segments of the non-blank chunks. */
  method ReadRawSegments(chunks: seq<RecognisedChunk>) returns (raw: Result<seq<Segment>, nat>)
    ensures raw == ReadSegments(chunks)
    ensures raw.Err? <==> exists k :: 0 <= k < |chunks| && chunks[k].timestamp.Unreadable?
    ensures raw.Ok? ==> raw.value == RawSegments(chunks)
  {
    var segs: seq<Segment> := [];
    var i := 0;
    while i < |chunks|
      invariant 0 <= i <= |chunks| && ReadSegments(chunks[..i]) == Ok(segs)
    {
      var step := ReadNext(chunks, i, segs);
      if step.Err? {
        ReadStopsAt(chunks, i);
        raw := Err(i);
        return;
      }
      segs := step.value;
      i := i + 1;
    }
    assert chunks[..i] == chunks;
    raw := Ok(segs);
  }

  /** One turn of the first loop, on the segments read so far. */
  method ReadNext(chunks: seq<RecognisedChunk>, i: nat, segs: seq<Segment>) returns (r: Result<seq<Segment>, ()>)
    requires i < |chunks| && ReadSegments(chunks[..i]) == Ok(segs)
    ensures r.Err? <==> chunks[i].timestamp.Unreadable?
    ensures r.Ok? ==> ReadSegments(chunks[..i + 1]) == Ok(r.value)
  {
    var seg := ReadChunk(chunks[i]);
    if seg.Err? {
      return Err(());
    }
    ReadContinues(chunks, i);
    r := Ok(if seg.value.Some? then segs + [seg.value.value] else segs);
    assert r.value == segs + Listed(seg.value) by {
      assert segs + [] == segs;
    }
  }

  /** With every timestamp readable, reading yields the segments of the non-blank chunks. */
  lemma AllReadable(chunks: seq<RecognisedChunk>)
    requires forall k :: 0 <= k < |chunks| ==> !chunks[k].timestamp.Unreadable?
    ensures ReadSegments(chunks) == Ok(RawSegments(chunks))
  {
    assert FirstUnreadable(chunks).None?;
  }

  /** Reading one more readable chunk appends its segment, if any. */
  lemma ReadContinues(chunks: seq<RecognisedChunk>, i: nat)
    requires i < |chunks| && ReadSegments(chunks[..i]).Ok? && !chunks[i].timestamp.Unreadable?
    ensures ReadSegments(chunks[..i + 1]) == Ok(ReadSegments(chunks[..i]).value + Listed(SegmentOf(chunks[i])))
  {
    var p, q := chunks[..i], chunks[..i + 1];
    forall k | 0 <= k < |q| ensures !q[k].timestamp.Unreadable? {
      if k < i {
        assert q[k] == p[k];
      }
    }
    AllReadable(p);
    AllReadable(q);
    RawSegmentsSnoc(chunks, i);
  }

  /** Reading stops at an unreadable chunk that follows a readable prefix. */
  lemma ReadStopsAt(chunks: seq<RecognisedChunk>, i: nat)
    requires i < |chunks| && ReadSegments(chunks[..i]).Ok? && chunks[i].timestamp.Unreadable?
    ensures ReadSegments(chunks) == Err(i)
  {
    var p := chunks[..i];
    forall k | 0 <= k < i ensures !chunks[k].timestamp.Unreadable? {
      assert chunks[k] == p[k];
    }
    FirstUnreadableAt(chunks, i);
  }

  /** The first unreadable chunk is the one no earlier unreadable chunk precedes. */
  lemma FirstUnreadableAt(chunks: seq<RecognisedChunk>, i: nat)
    requires i < |chunks| && chunks[i].timestamp.Unreadable?
    requires forall k :: 0 <= k < i ==> !chunks[k].timestamp.Unreadable?
    ensures FirstUnreadable(chunks) == Some(i) && ReadSegments(chunks) == Err(i)
  {
    var r := FirstUnreadable(chunks);
    assert r.Some? && r.value <= i;
  }

  // ---------------------------------------------------------------------------
  // groups

  function Texts(group: seq<Segment>): (r: seq<string>)
    ensures |r| == |group|
  {
    seq(|group|, i requires 0 <= i < |group| => group[i].text)
  }

  /** The number of words of a group, counting each part separately as the loop does. */
  function GroupWords(group: seq<Segment>): nat {
    SumWordCounts(Texts(group))
  }

  /** The segment a group of consecutive segments is merged into. */
  function Merge(group: seq<Segment>): Segment
    requires group != []
  {
    Segment(group[0].start, group[|group| - 1].end, Join(Texts(group), ", "))
  }

  /** The merged segment of each group. */
  function Merged(groups: seq<seq<Segment>>): (r: seq<Segment>)
    requires forall k :: 0 <= k < |groups| ==> groups[k] != []
    ensures |r| == |groups|
  {
    if groups == [] then []
    else Merged(groups[..|groups| - 1]) + [Merge(groups[|groups| - 1])]
  }

  /** The greedy grouping of the merge loop: every group is non-empty; a group only grew
      while its words stayed under the minimum; and a group was closed only because its
      next segment would have brought it to the minimum. */
  predicate Greedy(groups: seq<seq<Segment>>, minWords: int) {
    && (forall k :: 0 <= k < |groups| ==> groups[k] != [])
    && (forall k :: 0 <= k < |groups| && |groups[k]| >= 2 ==> GroupWords(groups[k]) < minWords)
    && (forall k :: 0 <= k < |groups| - 1 ==> ClosedBeforeNext(groups, k, minWords))
  }

  /** Group `k` was closed because the first segment of group `k + 1` would have brought
      it to the minimum. */
  predicate ClosedBeforeNext(groups: seq<seq<Segment>>, k: nat, minWords: int)
    requires k + 1 < |groups| && groups[k + 1] != []
  {
    GroupWords(groups[k]) + WordCount(groups[k + 1][0].text) >= minWords
  }

  lemma TextsAppend(a: seq<Segment>, b: seq<Segment>)
    ensures Texts(a + b) == Texts(a) + Texts(b)
  {
  }

  lemma GroupWordsAppend(a: seq<Segment>, b: seq<Segment>)
    ensures GroupWords(a + b) == GroupWords(a) + GroupWords(b)
  {
    TextsAppend(a, b);
    SumWordCountsAppend(Texts(a), Texts(b));
  }

  lemma GroupWordsSingle(seg: Segment)
    ensures GroupWords([seg]) == WordCount(seg.text)
  {
    assert Texts([seg]) == [seg.text];
    assert [seg.text][1..] == [];
    assert SumWordCounts([seg.text]) == WordCount(seg.text) + SumWordCounts([]);
  }

  lemma GroupWordsFirst(group: seq<Segment>)
    requires group != []
    ensures GroupWords(group) >= WordCount(group[0].text)
  {
    assert Texts(group)[0] == group[0].text;
  }

  /** The text of a merged group has as many words as its parts together. */
  lemma MergeWords(group: seq<Segment>)
    requires group != [] && TrimmedSegments(group)
    ensures WordCount(Merge(group).text) == GroupWords(group)
  {
    var texts := Texts(group);
    forall t | t in texts ensures IsTrimmedText(t) {
      var i :| 0 <= i < |texts| && texts[i] == t;
    }
    WordCountJoinComma(texts);
  }

  /** Adding a segment to the last group keeps the grouping greedy when the group stays
      under the minimum. */
  lemma GreedyGrow(groups: seq<seq<Segment>>, acc: seq<Segment>, seg: Segment, minWords: int)
    requires Greedy(groups + [acc], minWords)
    requires GroupWords(acc) + WordCount(seg.text) < minWords
    ensures Greedy(groups + [acc + [seg]], minWords)
  {
    var before := groups + [acc];
    var after := groups + [acc + [seg]];
    GroupWordsAppend(acc, [seg]);
    GroupWordsSingle(seg);
    forall k | 0 <= k < |groups| ensures after[k] == before[k] {
    }
    assert acc != [] by {
      assert before[|groups|] == acc;
    }
    assert (acc + [seg])[0] == acc[0];
    forall k | 0 <= k < |after| - 1 ensures ClosedBeforeNext(after, k, minWords) {
      assert ClosedBeforeNext(before, k, minWords);
      assert after[k + 1][0] == before[k + 1][0];
    }
  }

  /** Starting a new group keeps the grouping greedy when the segment would bring the last
      group to the minimum. */
  lemma GreedyClose(groups: seq<seq<Segment>>, acc: seq<Segment>, seg: Segment, minWords: int)
    requires Greedy(groups + [acc], minWords)
    requires GroupWords(acc) + WordCount(seg.text) >= minWords
    ensures Greedy(groups + [acc] + [[seg]], minWords)
  {
    var before := groups + [acc];
    var after := before + [[seg]];
    forall k | 0 <= k < |before| ensures after[k] == before[k] {
    }
    forall k | 0 <= k < |after| - 1 ensures ClosedBeforeNext(after, k, minWords) {
      if k < |before| - 1 {
        assert ClosedBeforeNext(before, k, minWords);
      }
    }
  }

  /** The loop's accumulator variables describe the group `acc`. */
  predicate Describes(acc: seq<Segment>, accStart: real, accEnd: real, accTexts: seq<string>, accWords: int) {
    && acc != []
    && accStart == acc[0].start && accEnd == acc[|acc| - 1].end
    && accTexts == Texts(acc) && accWords == GroupWords(acc)
  }

  /** After `i` raw segments, `groups` are closed and `acc` is open. */
  predicate Progress(raw: seq<Segment>, i: int, groups: seq<seq<Segment>>, acc: seq<Segment>, minWords: int) {
    && 1 <= i <= |raw| && acc != []
    && Flatten(groups) + acc == raw[..i]
    && Greedy(groups + [acc], minWords)
    && (forall k :: 0 <= k < |groups| ==> groups[k] != [])
  }

  lemma DescribesMerge(acc: seq<Segment>, accStart: real, accEnd: real, accTexts: seq<string>, accWords: int)
    requires Describes(acc, accStart, accEnd, accTexts, accWords)
    ensures Merge(acc) == Segment(accStart, accEnd, Join(accTexts, ", "))
  {
  }

  lemma MergedSnoc(groups: seq<seq<Segment>>, g: seq<Segment>)
    requires g != [] && forall k :: 0 <= k < |groups| ==> groups[k] != []
    ensures Merged(groups + [g]) == Merged(groups) + [Merge(g)]
  {
    assert (groups + [g])[..|groups|] == groups;
  }

  /** One step of the loop that adds the segment to the open group. */
  lemma GrowStep(raw: seq<Segment>, i: int, groups: seq<seq<Segment>>, acc: seq<Segment>, minWords: int,
                 accStart: real, accEnd: real, accTexts: seq<string>, accWords: int)
    requires Progress(raw, i, groups, acc, minWords) && i < |raw|
    requires Describes(acc, accStart, accEnd, accTexts, accWords)
    requires accWords + WordCount(raw[i].text) < minWords
    ensures Progress(raw, i + 1, groups, acc + [raw[i]], minWords)
    ensures Describes(acc + [raw[i]], accStart, raw[i].end, accTexts + [raw[i].text], accWords + WordCount(raw[i].text))
  {
    var seg := raw[i];
    assert raw[..i + 1] == raw[..i] + [seg];
    GreedyGrow(groups, acc, seg, minWords);
    GroupWordsAppend(acc, [seg]);
    GroupWordsSingle(seg);
    TextsAppend(acc, [seg]);
    assert Texts([seg]) == [seg.text];
  }

  /** One step of the loop that closes the open group and opens one with the segment. */
  lemma CloseStep(raw: seq<Segment>, i: int, groups: seq<seq<Segment>>, acc: seq<Segment>, minWords: int,
                  accWords: int)
    requires Progress(raw, i, groups, acc, minWords) && i < |raw|
    requires accWords == GroupWords(acc)
    requires accWords + WordCount(raw[i].text) >= minWords
    ensures Progress(raw, i + 1, groups + [acc], [raw[i]], minWords)
    ensures Describes([raw[i]], raw[i].start, raw[i].end, [raw[i].text], WordCount(raw[i].text))
    ensures Merged(groups + [acc]) == Merged(groups) + [Merge(acc)]
  {
    var seg := raw[i];
    assert raw[..i + 1] == raw[..i] + [seg];
    GreedyClose(groups, acc, seg, minWords);
    FlattenAppend(groups, acc);
    GroupWordsSingle(seg);
    assert Texts([seg]) == [seg.text];
    MergedSnoc(groups, acc);
  }

  /** The merge loop of `_merge_segments_by_min_words`, up to the last fix-up. */
  method GroupSegments(raw: seq<Segment>, minWords: int) returns (merged: seq<Segment>, ghost groups: seq<seq<Segment>>)
    requires raw != []
    ensures Greedy(groups, minWords) && Flatten(groups) == raw && groups != []
    ensures forall k :: 0 <= k < |groups| ==> groups[k] != []
    ensures merged == Merged(groups)
  {
    merged, groups := [], [];
    var accStart, accEnd := raw[0].start, raw[0].end;
    var accTexts := [raw[0].text];
    var accWords := WordCount(raw[0].text);
    ghost var acc := [raw[0]];
    assert Texts(acc) == accTexts;
    GroupWordsSingle(raw[0]);
    assert raw[..1] == acc;
    var i := 1;
    while i < |raw|
      invariant Progress(raw, i, groups, acc, minWords)
      invariant Describes(acc, accStart, accEnd, accTexts, accWords)
      invariant merged == Merged(groups)
    {
      var seg := raw[i];
      var segWords := WordCount(seg.text);
      if accWords + segWords < minWords {
        GrowStep(raw, i, groups, acc, minWords, accStart, accEnd, accTexts, accWords);
        accTexts := accTexts + [seg.text];
        accWords := accWords + segWords;
        accEnd := seg.end;
        acc := acc + [seg];
      } else {
        CloseStep(raw, i, groups, acc, minWords, accWords);
        DescribesMerge(acc, accStart, accEnd, accTexts, accWords);
        merged := merged + [Segment(accStart, accEnd, Join(accTexts, ", "))];
        groups := groups + [acc];
        accStart, accEnd := seg.start, seg.end;
        accTexts := [seg.text];
        accWords := segWords;
        acc := [seg];
      }
      i := i + 1;
    }
    DescribesMerge(acc, accStart, accEnd, accTexts, accWords);
    MergedSnoc(groups, acc);
    FlattenAppend(groups, acc);
    assert raw[..i] == raw;
    merged := merged + [Segment(accStart, accEnd, Join(accTexts, ", "))];
    groups := groups + [acc];
  }

  lemma GreedyTail(groups: seq<seq<Segment>>, minWords: int)
    requires Greedy(groups, minWords) && groups != []
    ensures Greedy(groups[1..], minWords)
  {
    var tail := groups[1..];
    forall k | 0 <= k < |tail| ensures tail[k] == groups[k + 1] {
    }
    forall k | 0 <= k < |tail| - 1 ensures ClosedBeforeNext(tail, k, minWords) {
      assert ClosedBeforeNext(groups, k + 1, minWords);
    }
  }

  /** A group has at least the words of each of its prefixes. */
  lemma GroupWordsPrefix(group: seq<Segment>, j: nat)
    requires j <= |group|
    ensures GroupWords(group) >= GroupWords(group[..j])
  {
    assert group == group[..j] + group[j..];
    GroupWordsAppend(group[..j], group[j..]);
  }

  /** Two ways of writing the same sequence with heads of different lengths: the shorter
      head is a prefix of the longer, and the rest after it starts inside the longer. */
  lemma ShorterHead<T>(a: seq<T>, x: seq<T>, b: seq<T>, y: seq<T>)
    requires a + x == b + y && |a| < |b|
    ensures b[..|a|] == a && x != [] && x[0] == b[|a|]
  {
    assert (a + x)[..|a|] == a;
    assert (b + y)[..|a|] == b[..|a|];
    assert (a + x)[|a|] == (b + y)[|a|];
  }

  /** The first segment after the first group of a grouping with two or more groups. */
  lemma RestStartsSecondGroup(groups: seq<seq<Segment>>, minWords: int)
    requires Greedy(groups, minWords) && groups != [] && Flatten(groups[1..]) != []
    ensures |groups| > 1 && Flatten(groups[1..])[0] == groups[1][0]
  {
    assert |groups| > 1;
    assert groups[1..][0] == groups[1] && groups[1] != [];
  }

  /** The first group of one greedy grouping is never shorter than that of another of the
      same segments. */
  lemma GreedyFirstNotShorter(g1: seq<seq<Segment>>, g2: seq<seq<Segment>>, minWords: int)
    requires Greedy(g1, minWords) && Greedy(g2, minWords) && g1 != [] && g2 != []
    requires Flatten(g1) == Flatten(g2)
    ensures |g1[0]| >= |g2[0]|
  {
    var a, b := g1[0], g2[0];
    if |a| < |b| {
      ShorterHead(a, Flatten(g1[1..]), b, Flatten(g2[1..]));
      RestStartsSecondGroup(g1, minWords);
      // `a` closed because the segment after it, the next one of `b`, would reach the
      // minimum; so `b`, which holds both, reaches it too and cannot have two segments.
      assert ClosedBeforeNext(g1, 0, minWords);
      LongerGroupReaches(a, b, minWords);
    }
  }

  /** A group that extends `a` by the segment that would have brought `a` to the minimum
      reaches the minimum itself. */
  lemma LongerGroupReaches(a: seq<Segment>, b: seq<Segment>, minWords: int)
    requires |a| < |b| && b[..|a|] == a
    requires GroupWords(a) + WordCount(b[|a|].text) >= minWords
    ensures GroupWords(b) >= minWords
  {
    var next := b[|a|];
    GroupWordsPrefix(b, |a| + 1);
    assert b[..|a| + 1] == a + [next];
    GroupWordsAppend(a, [next]);
    GroupWordsSingle(next);
  }

  /** The greedy grouping of a sequence of segments is unique: the specification of the
      merge loop determines its result. */
  lemma {:induction false} GreedyUnique(g1: seq<seq<Segment>>, g2: seq<seq<Segment>>, minWords: int)
    requires Greedy(g1, minWords) && Greedy(g2, minWords)
    requires Flatten(g1) == Flatten(g2)
    ensures g1 == g2
    decreases |g1|
  {
    if g1 != [] && g2 != [] {
      GreedyFirstNotShorter(g1, g2, minWords);
      GreedyFirstNotShorter(g2, g1, minWords);
      var raw := Flatten(g1);
      assert raw == g1[0] + Flatten(g1[1..]) && raw == g2[0] + Flatten(g2[1..]);
      assert g1[0] == raw[..|g1[0]|] == g2[0];
      assert Flatten(g1[1..]) == raw[|g1[0]|..] == Flatten(g2[1..]);
      GreedyTail(g1, minWords);
      GreedyTail(g2, minWords);
      GreedyUnique(g1[1..], g2[1..], minWords);
      assert g1 == [g1[0]] + g1[1..] && g2 == [g2[0]] + g2[1..];
    }
  }

  lemma {:induction false} FlattenLength<T>(lists: seq<seq<T>>)
    requires forall k :: 0 <= k < |lists| ==> lists[k] != []
    ensures |Flatten(lists)| >= |lists|
  {
    if lists != [] {
      FlattenLength(lists[1..]);
    }
  }

  /** Every group of a grouping of trimmed segments is trimmed. */
  lemma {:induction false} GroupsTrimmed(groups: seq<seq<Segment>>)
    requires TrimmedSegments(Flatten(groups))
    ensures forall k :: 0 <= k < |groups| ==> TrimmedSegments(groups[k])
  {
    if groups != [] {
      var f := Flatten(groups);
      assert f == groups[0] + Flatten(groups[1..]);
      forall i | 0 <= i < |Flatten(groups[1..])| ensures IsTrimmedText(Flatten(groups[1..])[i].text) {
        assert Flatten(groups[1..])[i] == f[|groups[0]| + i];
      }
      GroupsTrimmed(groups[1..]);
      forall k | 0 <= k < |groups| ensures TrimmedSegments(groups[k]) {
        if k > 0 {
          assert groups[k] == groups[1..][k - 1];
        } else {
          forall i | 0 <= i < |groups[0]| ensures IsTrimmedText(groups[0][i].text) {
            assert groups[0][i] == f[i];
          }
        }
      }
    }
  }

  /** The grouping after the fix-up: the last two groups are joined when the last one is
      short. */
  function FixedGroups(groups: seq<seq<Segment>>, minWords: int): seq<seq<Segment>> {
    var n := |groups|;
    if n > 1 && GroupWords(groups[n - 1]) < minWords then groups[..n - 2] + [groups[n - 2] + groups[n - 1]]
    else groups
  }

  /** Joining the last two groups keeps the segments and their order. */
  lemma FixedGroupsFlatten(groups: seq<seq<Segment>>, minWords: int)
    ensures Flatten(FixedGroups(groups, minWords)) == Flatten(groups)
  {
    var n := |groups|;
    if n > 1 && GroupWords(groups[n - 1]) < minWords {
      var a: seq<Segment>, b: seq<Segment> := groups[n - 2], groups[n - 1];
      var init := groups[..n - 2];
      assert groups == init + [a] + [b];
      FlattenAppend(init + [a], b);
      FlattenAppend(init, a);
      FlattenAppend(init, a + b);
    }
  }

  /** Joining the last two groups keeps every group non-empty and trimmed. */
  lemma FixedGroupsTrimmed(groups: seq<seq<Segment>>, minWords: int)
    requires forall k :: 0 <= k < |groups| ==> groups[k] != [] && TrimmedSegments(groups[k])
    ensures var fixed := FixedGroups(groups, minWords);
      forall k :: 0 <= k < |fixed| ==> fixed[k] != [] && TrimmedSegments(fixed[k])
  {
    var n := |groups|;
    if n > 1 && GroupWords(groups[n - 1]) < minWords {
      var a: seq<Segment>, b: seq<Segment> := groups[n - 2], groups[n - 1];
      var fixed := groups[..n - 2] + [a + b];
      forall k | 0 <= k < |fixed| ensures fixed[k] != [] && TrimmedSegments(fixed[k]) {
        if k < n - 2 {
          assert fixed[k] == groups[k];
        } else {
          assert TrimmedSegments(a) && TrimmedSegments(b);
          forall i | 0 <= i < |a + b| ensures IsTrimmedText((a + b)[i].text) {
            if i >= |a| {
              assert (a + b)[i] == b[i - |a|];
            }
          }
        }
      }
    }
  }

  /** After the fix-up, the grouping is non-empty, its groups are non-empty and trimmed,
      it holds the same segments, and its last group reaches the minimum unless it is the
      only one. */
  lemma FixedGroupsFacts(groups: seq<seq<Segment>>, minWords: int)
    requires Greedy(groups, minWords) && groups != []
    requires TrimmedSegments(Flatten(groups))
    ensures var fixed := FixedGroups(groups, minWords);
      && fixed != []
      && (forall k :: 0 <= k < |fixed| ==> fixed[k] != [] && TrimmedSegments(fixed[k]))
      && Flatten(fixed) == Flatten(groups)
      && (|fixed| == 1 || GroupWords(fixed[|fixed| - 1]) >= minWords)
  {
    var n := |groups|;
    GroupsTrimmed(groups);
    FixedGroupsTrimmed(groups, minWords);
    FixedGroupsFlatten(groups, minWords);
    if n > 1 && GroupWords(groups[n - 1]) < minWords {
      var a: seq<Segment>, b: seq<Segment> := groups[n - 2], groups[n - 1];
      assert ClosedBeforeNext(groups, n - 2, minWords);
      GroupWordsAppend(a, b);
      GroupWordsFirst(b);
      assert FixedGroups(groups, minWords)[n - 2] == a + b;
    }
  }

  /** `_merge_segments_by_min_words`: it raises (`Err`, with the chunk's position) when a
      chunk's timestamp is unreadable; otherwise the segments of the non-blank chunks,
      grouped greedily (`groups`), with a short last group folded into the previous one
      (`fixed`). */
  method MergeSegmentsByMinWords(chunks: seq<RecognisedChunk>, minWords: int)
    returns (r: Result<seq<Segment>, nat>, ghost groups: seq<seq<Segment>>, ghost fixed: seq<seq<Segment>>)
    ensures r.Err? <==> FirstUnreadable(chunks).Some?
    ensures r.Err? ==> r.error == FirstUnreadable(chunks).value
    ensures r.Ok? ==> (RawSegments(chunks) == [] <==> r.value == [])
    ensures r.Ok? ==> Greedy(groups, minWords) && Flatten(groups) == RawSegments(chunks)
    ensures r.Ok? ==> fixed == FixedGroups(groups, minWords) && Flatten(fixed) == RawSegments(chunks)
    ensures r.Ok? ==> (forall k :: 0 <= k < |fixed| ==> fixed[k] != []) && r.value == Merged(fixed)
    ensures r.Ok? ==> |r.value| <= |RawSegments(chunks)|
    ensures r.Ok? ==> |r.value| <= 1 || WordCount(r.value[|r.value| - 1].text) >= minWords
  {
    var read := ReadRawSegments(chunks);
    if read.Err? {
      return Err(read.error), [], [];
    }
    var merged;
    merged, groups, fixed := MergeRead(chunks, read.value, minWords);
    r := Ok(merged);
  }

  /** The rest of `_merge_segments_by_min_words`, once every chunk was read. */
  method MergeRead(ghost chunks: seq<RecognisedChunk>, raw: seq<Segment>, minWords: int)
    returns (merged: seq<Segment>, ghost groups: seq<seq<Segment>>, ghost fixed: seq<seq<Segment>>)
    requires raw == RawSegments(chunks)
    ensures raw == [] <==> merged == []
    ensures Greedy(groups, minWords) && Flatten(groups) == raw
    ensures fixed == FixedGroups(groups, minWords) && Flatten(fixed) == raw
    ensures (forall k :: 0 <= k < |fixed| ==> fixed[k] != []) && merged == Merged(fixed)
    ensures |merged| <= |raw|
    ensures |merged| <= 1 || WordCount(merged[|merged| - 1].text) >= minWords
  {
    if raw == [] {
      return [], [], [];
    }
    RawSegmentsTrimmed(chunks);
    merged, groups := GroupSegments(raw, minWords);
    GroupsTrimmed(groups);
    fixed := FixedGroups(groups, minWords);
    FixedGroupsFacts(groups, minWords);
    var n := |merged|;
    MergeWords(groups[n - 1]);
    if n > 1 && WordCount(merged[n - 1].text) < minWords {
      var prev := merged[n - 1];
      var last := merged[n - 2];
      merged := merged[..n - 2] + [Segment(last.start, prev.end, last.text + ", " + prev.text)];
      MergeFixed(groups, minWords);
    }
    FlattenLength(fixed);
    MergeWords(fixed[|fixed| - 1]);
  }

  /** Merging two adjacent groups joins their merged segments with ", ". */
  lemma MergeConcat(a: seq<Segment>, b: seq<Segment>)
    requires a != [] && b != []
    ensures Merge(a + b) == Segment(Merge(a).start, Merge(b).end, Merge(a).text + ", " + Merge(b).text)
  {
    TextsAppend(a, b);
    JoinAppend(Texts(a), Texts(b), ", ");
  }

  lemma MergedLastTwo(groups: seq<seq<Segment>>)
    requires |groups| > 1 && forall k :: 0 <= k < |groups| ==> groups[k] != []
    ensures var n := |groups|;
      Merged(groups) == Merged(groups[..n - 2]) + [Merge(groups[n - 2]), Merge(groups[n - 1])]
  {
    var n := |groups|;
    assert groups[..n - 1][..n - 2] == groups[..n - 2];
  }

  /** The fix-up of the merged segments is the merge of the fixed-up grouping. */
  lemma MergeFixed(groups: seq<seq<Segment>>, minWords: int)
    requires |groups| > 1 && forall k :: 0 <= k < |groups| ==> groups[k] != []
    ensures var n := |groups|; var m := Merged(groups);
      Merged(groups[..n - 2] + [groups[n - 2] + groups[n - 1]])
        == m[..n - 2] + [Segment(m[n - 2].start, m[n - 1].end, m[n - 2].text + ", " + m[n - 1].text)]
  {
    var n := |groups|;
    var a: seq<Segment>, b: seq<Segment> := groups[n - 2], groups[n - 1];
    var init := groups[..n - 2];
    var m := Merged(groups);
    MergedLastTwo(groups);
    var front := Merged(init);
    assert m == front + [Merge(a), Merge(b)];
    assert m[..n - 2] == front && m[n - 2] == Merge(a) && m[n - 1] == Merge(b);
    MergeConcat(a, b);
    var fixed := init + [a + b];
    assert fixed[..n - 2] == init && fixed[n - 2] == a + b;
    assert Merged(fixed) == front + [Merge(a + b)];
  }
}
