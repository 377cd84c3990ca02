/**
  * The text helpers of the pipeline stages: transcript chunking by token count,
  * subtopic and truth-table merging with deduplication, Whisper segment merging,
  * and parsing of the model's subtopic answer. The tokenizer, the sentence-splitting
  * regular expression and the separator-line regular expression are parameters.
  */
module StepsText {
  import opened Wrappers
  import opened Text

  /** `[p.strip() for p in pieces if p.strip()]`. */
  function NonBlankStripped(pieces: seq<string>): (r: seq<string>)
    ensures |r| <= |pieces|
    ensures forall x :: x in r ==> x != [] && NoSpaceAtEnds(x)
  {
    if pieces == [] then []
    else
      var s := Strip(pieces[0]);
      StripFacts(pieces[0]);
      (if s != [] then [s] else []) + NonBlankStripped(pieces[1..])
  }

  function Flatten<T>(lists: seq<seq<T>>): seq<T> {
    if lists == [] then [] else lists[0] + Flatten(lists[1..])
  }

  lemma FlattenAppend<T>(lists: seq<seq<T>>, last: seq<T>)
    ensures Flatten(lists + [last]) == Flatten(lists) + last
  {
    if lists == [] {
      assert [] + [last] == [last];
    } else {
      assert (lists + [last])[1..] == lists[1..] + [last];
      FlattenAppend(lists[1..], last);
    }
  }

  lemma FlattenCons<T>(lists: seq<seq<T>>, i: nat)
    requires i < |lists|
    ensures Flatten(lists[i..]) == lists[i] + Flatten(lists[i + 1..])
  {
    assert lists[i..][1..] == lists[i + 1..];
  }

  // ===========================================================================
  // _chunk_transcript

  type Token = int

  /** How one step of `_chunk_transcript` produced chunks: whole sentences joined by a
      space, or the hard cut of one over-long sentence into token slices. */
  datatype ChunkPlan = Group(sentences: seq<string>) | Cut(sentence: string, slices: seq<seq<Token>>)

  function Decoded(slices: seq<seq<Token>>, decode: seq<Token> -> string): (r: seq<string>)
    ensures |r| == |slices|
  {
    if slices == [] then [] else Decoded(slices[..|slices| - 1], decode) + [decode(slices[|slices| - 1])]
  }

  function RenderChunk(p: ChunkPlan, decode: seq<Token> -> string): seq<string> {
    match p
    case Group(ss) => [Join(ss, " ")]
    case Cut(_, slices) => Decoded(slices, decode)
  }

  /** The chunks a plan stands for, in order. */
  function Render(plan: seq<ChunkPlan>, decode: seq<Token> -> string): seq<string> {
    if plan == [] then []
    else Render(plan[..|plan| - 1], decode) + RenderChunk(plan[|plan| - 1], decode)
  }

  function SentencesOf(p: ChunkPlan): seq<string> {
    match p
    case Group(ss) => ss
    case Cut(s, _) => [s]
  }

  /** The sentences a plan is made of, in order. */
  function Sources(plan: seq<ChunkPlan>): seq<string> {
    if plan == [] then [] else Sources(plan[..|plan| - 1]) + SentencesOf(plan[|plan| - 1])
  }

  function Concat(slices: seq<seq<Token>>): seq<Token> {
    if slices == [] then [] else Concat(slices[..|slices| - 1]) + slices[|slices| - 1]
  }

  function TokenCount(sentences: seq<string>, encode: string -> seq<Token>): nat {
    if sentences == [] then 0
    else TokenCount(sentences[..|sentences| - 1], encode) + |encode(sentences[|sentences| - 1])|
  }

  /** What each step of the chunking promises: a group of whole sentences within the
      token budget, or a sentence over the budget cut into ceil(n / max) slices that together
      are its tokens, each of exactly `maxTokens` tokens but the last, which holds the rest. */
  predicate ChunkPlanOk(p: ChunkPlan, encode: string -> seq<Token>, maxTokens: nat) {
    match p
    case Group(ss) => ss != [] && TokenCount(ss, encode) <= maxTokens
    case Cut(s, slices) =>
      && |encode(s)| > maxTokens
      && Concat(slices) == encode(s)
      && (forall i :: 0 <= i < |slices| ==> 0 < |slices[i]| <= maxTokens)
      && (forall i :: 0 <= i < |slices| - 1 ==> |slices[i]| == maxTokens)
      && |slices| > 0
      && |slices| == (|encode(s)| + maxTokens - 1) / maxTokens
  }

  lemma MulMonotone(a: int, b: int, m: nat)
    ensures a <= b ==> a * m <= b * m
  {
    assert b * m - a * m == (b - a) * m;
  }

  lemma CeilDiv(n: nat, m: nat, q: nat)
    requires m > 0 && q > 0
    requires (q - 1) * m < n <= q * m
    ensures (n + m - 1) / m == q
  {
    var x := n + m - 1;
    var d, r := x / m, x % m;
    assert x == d * m + r && 0 <= r < m;
    assert q * m <= x < q * m + m;
    MulMonotone(q + 1, d, m);
    MulMonotone(d + 1, q, m);
  }

  /** Slices of exactly `m` tokens each hold `m` tokens apiece. */
  lemma {:induction false} FullSlicesLength(slices: seq<seq<Token>>, m: nat)
    requires forall k :: 0 <= k < |slices| ==> |slices[k]| == m
    ensures |Concat(slices)| == |slices| * m
  {
    if slices != [] {
      FullSlicesLength(slices[..|slices| - 1], m);
      assert |slices| * m == (|slices| - 1) * m + m;
    }
  }

  /** Full slices followed by one non-empty, not over-full last slice: there are
      ceil(n / m) of them for n tokens in all. */
  lemma SliceCount(slices: seq<seq<Token>>, m: nat)
    requires m > 0 && slices != []
    requires forall k :: 0 <= k < |slices| - 1 ==> |slices[k]| == m
    requires 0 < |slices[|slices| - 1]| <= m
    ensures |slices| == (|Concat(slices)| + m - 1) / m
  {
    var init := slices[..|slices| - 1];
    FullSlicesLength(init, m);
    var q := |slices|;
    assert |Concat(slices)| == (q - 1) * m + |slices[q - 1]|;
    assert q * m == (q - 1) * m + m;
    CeilDiv(|Concat(slices)|, m, q);
  }

  /** What the cutting loop keeps while `i` runs over `range(0, len(ids), m)`: the slices
      so far are the tokens before `i`, all but the last full, none empty. */
  predicate CutProgress(ids: seq<Token>, i: nat, m: nat, slices: seq<seq<Token>>) {
    && (i <= |ids| ==> Concat(slices) == ids[..i])
    && (i > |ids| ==> Concat(slices) == ids)
    && (i > 0 ==> slices != [])
    && (forall k :: 0 <= k < |slices| ==> 0 < |slices[k]| <= m)
    && (forall k :: 0 <= k < |slices| - 1 ==> |slices[k]| == m)
    && (i <= |ids| ==> forall k :: 0 <= k < |slices| ==> |slices[k]| == m)
  }

  lemma CutProgressStep(ids: seq<Token>, i: nat, m: nat, slices: seq<seq<Token>>)
    requires m > 0 && i < |ids| && CutProgress(ids, i, m, slices)
    ensures var j := if i + m < |ids| then i + m else |ids|;
      CutProgress(ids, i + m, m, slices + [ids[i..j]])
  {
    var j := if i + m < |ids| then i + m else |ids|;
    var slice := ids[i..j];
    assert ids[..j] == ids[..i] + slice;
    assert (slices + [slice])[..|slices|] == slices;
  }

  lemma DecodedAppend(slices: seq<seq<Token>>, slice: seq<Token>, decode: seq<Token> -> string)
    ensures Decoded(slices + [slice], decode) == Decoded(slices, decode) + [decode(slice)]
  {
    assert (slices + [slice])[..|slices|] == slices;
  }

  /** The inner loop of `_chunk_transcript`: `ids[i : i + max_tokens]` for i in
      `range(0, len(ids), max_tokens)`, each decoded. */
  method CutSentence(ids: seq<Token>, maxTokens: nat, decode: seq<Token> -> string)
    returns (pieces: seq<string>, ghost slices: seq<seq<Token>>)
    requires maxTokens > 0
    ensures pieces == Decoded(slices, decode)
    ensures Concat(slices) == ids
    ensures forall k :: 0 <= k < |slices| ==> 0 < |slices[k]| <= maxTokens
    ensures forall k :: 0 <= k < |slices| - 1 ==> |slices[k]| == maxTokens
    ensures ids != [] ==> |slices| > 0 && |slices| == (|ids| + maxTokens - 1) / maxTokens
  {
    pieces, slices := [], [];
    var i := 0;
    while i < |ids|
      invariant CutProgress(ids, i, maxTokens, slices)
      invariant pieces == Decoded(slices, decode)
      decreases |ids| - i
    {
      var j := if i + maxTokens < |ids| then i + maxTokens else |ids|;
      CutProgressStep(ids, i, maxTokens, slices);
      DecodedAppend(slices, ids[i..j], decode);
      pieces := pieces + [decode(ids[i..j])];
      slices := slices + [ids[i..j]];
      i := i + maxTokens;
    }
    if ids != [] {
      SliceCount(slices, maxTokens);
    }
  }

  predicate PlanOk(plan: seq<ChunkPlan>, encode: string -> seq<Token>, maxTokens: nat) {
    forall p :: p in plan ==> ChunkPlanOk(p, encode, maxTokens)
  }

  /** Groups are packed greedily: a group is closed only because the next sentence would
      have taken it over the budget, so no two adjacent groups could have been one. */
  predicate Packed(plan: seq<ChunkPlan>, encode: string -> seq<Token>, maxTokens: nat) {
    forall i :: 0 <= i < |plan| - 1 && plan[i].Group? && plan[i + 1].Group? && plan[i + 1].sentences != [] ==>
      TokenCount(plan[i].sentences + [plan[i + 1].sentences[0]], encode) > maxTokens
  }

  /** The open group `current` continues a plan ending in a group only when its first
      sentence did not fit into that group. */
  predicate OpenAfter(plan: seq<ChunkPlan>, current: seq<string>, encode: string -> seq<Token>, maxTokens: nat) {
    plan != [] && plan[|plan| - 1].Group? ==>
      current != [] && TokenCount(plan[|plan| - 1].sentences + [current[0]], encode) > maxTokens
  }

  /** Appending a step keeps the plan packed when a group follows a group only because
      its first sentence did not fit. */
  lemma PackedAppend(plan: seq<ChunkPlan>, p: ChunkPlan, encode: string -> seq<Token>, maxTokens: nat)
    requires Packed(plan, encode, maxTokens)
    requires p.Group? ==> OpenAfter(plan, p.sentences, encode, maxTokens)
    ensures Packed(plan + [p], encode, maxTokens)
  {
    var q := plan + [p];
    forall i | 0 <= i < |q| - 1 && q[i].Group? && q[i + 1].Group? && q[i + 1].sentences != []
      ensures TokenCount(q[i].sentences + [q[i + 1].sentences[0]], encode) > maxTokens
    {
      if i < |plan| - 1 {
        assert q[i] == plan[i] && q[i + 1] == plan[i + 1];
      }
    }
  }

  lemma PlanAppend(plan: seq<ChunkPlan>, p: ChunkPlan, decode: seq<Token> -> string)
    ensures Render(plan + [p], decode) == Render(plan, decode) + RenderChunk(p, decode)
    ensures Sources(plan + [p]) == Sources(plan) + SentencesOf(p)
  {
    assert (plan + [p])[..|plan|] == plan;
  }

  lemma PlanOkAppend(plan: seq<ChunkPlan>, p: ChunkPlan, encode: string -> seq<Token>, maxTokens: nat)
    requires PlanOk(plan, encode, maxTokens) && ChunkPlanOk(p, encode, maxTokens)
    ensures PlanOk(plan + [p], encode, maxTokens)
  {
  }

  lemma TokenCountAppend(current: seq<string>, sent: string, encode: string -> seq<Token>)
    ensures TokenCount(current + [sent], encode) == TokenCount(current, encode) + |encode(sent)|
  {
    assert (current + [sent])[..|current|] == current;
  }

  lemma PrefixSnoc<T>(s: seq<T>, k: nat)
    requires k < |s|
    ensures s[..k + 1] == s[..k] + [s[k]]
  {
  }

  /** `chunks.append(" ".join(current))`: the open group becomes a chunk. */
  method CloseGroup(chunks: seq<string>, ghost plan: seq<ChunkPlan>, current: seq<string>,
                    ghost encode: string -> seq<Token>, decode: seq<Token> -> string, maxTokens: nat)
    returns (chunks': seq<string>, ghost plan': seq<ChunkPlan>)
    requires chunks == Render(plan, decode) && PlanOk(plan, encode, maxTokens)
    requires current != [] && TokenCount(current, encode) <= maxTokens
    requires Packed(plan, encode, maxTokens) && OpenAfter(plan, current, encode, maxTokens)
    ensures chunks' == Render(plan', decode) && PlanOk(plan', encode, maxTokens)
    ensures plan' != [] && |chunks'| >= |plan'| - |plan| + |chunks|
    ensures Packed(plan', encode, maxTokens) && plan'[|plan'| - 1] == Group(current)
    ensures Sources(plan') == Sources(plan) + current
  {
    PlanAppend(plan, Group(current), decode);
    PlanOkAppend(plan, Group(current), encode, maxTokens);
    PackedAppend(plan, Group(current), encode, maxTokens);
    chunks' := chunks + [Join(current, " ")];
    plan' := plan + [Group(current)];
  }

  /** The branch of the loop of `_chunk_transcript` for a sentence over the budget:
      close the open group, then cut the sentence into token slices. */
  method CutStep(sent: string, chunks: seq<string>, ghost plan: seq<ChunkPlan>, current: seq<string>,
                 encode: string -> seq<Token>, decode: seq<Token> -> string, maxTokens: nat)
    returns (chunks': seq<string>, ghost plan': seq<ChunkPlan>)
    requires maxTokens > 0 && |encode(sent)| > maxTokens
    requires chunks == Render(plan, decode) && PlanOk(plan, encode, maxTokens) && |chunks| >= |plan|
    requires current != [] ==> TokenCount(current, encode) <= maxTokens
    requires Packed(plan, encode, maxTokens) && OpenAfter(plan, current, encode, maxTokens)
    ensures chunks' == Render(plan', decode) && PlanOk(plan', encode, maxTokens) && |chunks'| >= |plan'|
    ensures Packed(plan', encode, maxTokens) && OpenAfter(plan', [], encode, maxTokens)
    ensures Sources(plan') == Sources(plan) + current + [sent]
    ensures plan' != []
  {
    chunks', plan' := chunks, plan;
    if current != [] {
      chunks', plan' := CloseGroup(chunks, plan, current, encode, decode, maxTokens);
    }
    var cut, slices := CutSentence(encode(sent), maxTokens, decode);
    ghost var p := Cut(sent, slices);
    assert ChunkPlanOk(p, encode, maxTokens);
    PlanAppend(plan', p, decode);
    PlanOkAppend(plan', p, encode, maxTokens);
    PackedAppend(plan', p, encode, maxTokens);
    chunks' := chunks' + cut;
    plan' := plan' + [p];
  }

  /** One turn of the loop of `_chunk_transcript` over the sentences. */
  method ChunkStep(sent: string, chunks: seq<string>, ghost plan: seq<ChunkPlan>,
                   current: seq<string>, currentTokens: nat,
                   encode: string -> seq<Token>, decode: seq<Token> -> string, maxTokens: nat)
    returns (chunks': seq<string>, ghost plan': seq<ChunkPlan>, current': seq<string>, currentTokens': nat)
    requires maxTokens > 0
    requires chunks == Render(plan, decode) && PlanOk(plan, encode, maxTokens) && |chunks| >= |plan|
    requires currentTokens == TokenCount(current, encode) <= maxTokens
    requires Packed(plan, encode, maxTokens) && OpenAfter(plan, current, encode, maxTokens)
    ensures chunks' == Render(plan', decode) && PlanOk(plan', encode, maxTokens) && |chunks'| >= |plan'|
    ensures Packed(plan', encode, maxTokens) && OpenAfter(plan', current', encode, maxTokens)
    ensures currentTokens' == TokenCount(current', encode) <= maxTokens
    ensures Sources(plan') + current' == Sources(plan) + current + [sent]
    ensures plan' != [] || current' != []
  {
    var n := |encode(sent)|;
    if n > maxTokens {
      chunks', plan' := CutStep(sent, chunks, plan, current, encode, decode, maxTokens);
      current', currentTokens' := [], 0;
    } else {
      chunks', plan', current', currentTokens' := AddSentence(sent, chunks, plan, current, currentTokens, encode, decode, maxTokens);
    }
  }

  /** A sentence within the budget: it closes the open group when it would not fit in it,
      then joins the open group. */
  method AddSentence(sent: string, chunks: seq<string>, ghost plan: seq<ChunkPlan>,
                     current: seq<string>, currentTokens: nat,
                     encode: string -> seq<Token>, decode: seq<Token> -> string, maxTokens: nat)
    returns (chunks': seq<string>, ghost plan': seq<ChunkPlan>, current': seq<string>, currentTokens': nat)
    requires |encode(sent)| <= maxTokens
    requires chunks == Render(plan, decode) && PlanOk(plan, encode, maxTokens) && |chunks| >= |plan|
    requires currentTokens == TokenCount(current, encode) <= maxTokens
    requires Packed(plan, encode, maxTokens) && OpenAfter(plan, current, encode, maxTokens)
    ensures chunks' == Render(plan', decode) && PlanOk(plan', encode, maxTokens) && |chunks'| >= |plan'|
    ensures Packed(plan', encode, maxTokens) && OpenAfter(plan', current', encode, maxTokens)
    ensures currentTokens' == TokenCount(current', encode) <= maxTokens
    ensures Sources(plan') + current' == Sources(plan) + current + [sent]
    ensures current' != []
  {
    var n := |encode(sent)|;
    chunks', plan', current', currentTokens' := chunks, plan, current, currentTokens;
    if currentTokens + n > maxTokens && current != [] {
      chunks', plan' := CloseGroup(chunks, plan, current, encode, decode, maxTokens);
      current', currentTokens' := [], 0;
    }
    TokenCountAppend(current', sent, encode);
    if current' == [] && plan' != [] && plan'[|plan'| - 1].Group? {
      assert plan' != plan && plan'[|plan'| - 1] == Group(current);
    }
    current' := current' + [sent];
    currentTokens' := currentTokens' + n;
  }

  /** `_chunk_transcript`. `pieces` stands for what the sentence-boundary regular
      expression splits the stripped text into, and `encode`/`decode` for the tokenizer. */
  method ChunkTranscript(text: string, pieces: seq<string>, encode: string -> seq<Token>,
                         decode: seq<Token> -> string, maxTokens: nat)
    returns (chunks: seq<string>, ghost plan: seq<ChunkPlan>)
    requires maxTokens > 0
    ensures Strip(text) == [] ==> chunks == []
    ensures Strip(text) != [] && NonBlankStripped(pieces) == [] ==> chunks == [Strip(text)]
    ensures Strip(text) != [] && NonBlankStripped(pieces) != [] ==>
      && chunks == Render(plan, decode)
      && Sources(plan) == NonBlankStripped(pieces)
      && PlanOk(plan, encode, maxTokens)
      && Packed(plan, encode, maxTokens)
      && chunks != []
  {
    chunks, plan := [], [];
    var stripped := Strip(text);
    if stripped == [] {
      return;
    }
    var sentences := NonBlankStripped(pieces);
    if sentences == [] {
      chunks := [stripped];
      return;
    }
    chunks, plan := ChunkSentences(sentences, encode, decode, maxTokens);
  }

  /** The loop of `_chunk_transcript` over the sentences, then the closing of the last group. */
  method ChunkSentences(sentences: seq<string>, encode: string -> seq<Token>,
                        decode: seq<Token> -> string, maxTokens: nat)
    returns (chunks: seq<string>, ghost plan: seq<ChunkPlan>)
    requires maxTokens > 0 && sentences != []
    ensures chunks == Render(plan, decode) && Sources(plan) == sentences
    ensures PlanOk(plan, encode, maxTokens) && Packed(plan, encode, maxTokens)
    ensures chunks != []
  {
    chunks, plan := [], [];
    var current: seq<string> := [];
    var currentTokens := 0;
    var k := 0;
    while k < |sentences|
      invariant 0 <= k <= |sentences|
      invariant chunks == Render(plan, decode) && PlanOk(plan, encode, maxTokens) && |chunks| >= |plan|
      invariant Sources(plan) + current == sentences[..k]
      invariant currentTokens == TokenCount(current, encode) <= maxTokens
      invariant Packed(plan, encode, maxTokens) && OpenAfter(plan, current, encode, maxTokens)
      invariant k > 0 ==> plan != [] || current != []
    {
      PrefixSnoc(sentences, k);
      chunks, plan, current, currentTokens :=
        ChunkStep(sentences[k], chunks, plan, current, currentTokens, encode, decode, maxTokens);
      k := k + 1;
    }
    assert sentences[..k] == sentences;
    chunks, plan := CloseLast(chunks, plan, current, encode, decode, maxTokens);
  }

  /** `if current: chunks.append(" ".join(current))` after the loop. */
  method CloseLast(chunks: seq<string>, ghost plan: seq<ChunkPlan>, current: seq<string>,
                   ghost encode: string -> seq<Token>, decode: seq<Token> -> string, maxTokens: nat)
    returns (chunks': seq<string>, ghost plan': seq<ChunkPlan>)
    requires chunks == Render(plan, decode) && PlanOk(plan, encode, maxTokens) && |chunks| >= |plan|
    requires TokenCount(current, encode) <= maxTokens && (plan != [] || current != [])
    requires Packed(plan, encode, maxTokens) && OpenAfter(plan, current, encode, maxTokens)
    ensures chunks' == Render(plan', decode) && PlanOk(plan', encode, maxTokens) && Packed(plan', encode, maxTokens)
    ensures Sources(plan') == Sources(plan) + current
    ensures chunks' != []
  {
    chunks', plan' := chunks, plan;
    if current != [] {
      chunks', plan' := CloseGroup(chunks, plan, current, encode, decode, maxTokens);
    } else {
      assert Sources(plan) + current == Sources(plan);
    }
  }

  // ===========================================================================
  // _merge_dedup_subtopics

  /** The items of `items` whose key has more than two characters and was not seen
      before, in order: the first item of each key wins. */
  function KeepFirst(items: seq<string>, seen: set<string>, key: string -> string): (r: seq<string>)
    ensures |r| <= |items|
    ensures forall x :: x in r ==> |key(x)| > 2 && key(x) !in seen
  {
    if items == [] then []
    else
      var k := key(items[0]);
      if k != [] && |k| > 2 && k !in seen then [items[0]] + KeepFirst(items[1..], seen + {k}, key)
      else KeepFirst(items[1..], seen, key)
  }

  predicate KeysDistinct(r: seq<string>, key: string -> string) {
    forall i, j :: 0 <= i < j < |r| ==> key(r[i]) != key(r[j])
  }

  /** No two kept items share a key. */
  lemma {:induction false} KeepFirstDistinct(items: seq<string>, seen: set<string>, key: string -> string)
    ensures KeysDistinct(KeepFirst(items, seen, key), key)
  {
    if items != [] {
      var k := key(items[0]);
      if k != [] && |k| > 2 && k !in seen {
        var tail := KeepFirst(items[1..], seen + {k}, key);
        KeepFirstDistinct(items[1..], seen + {k}, key);
        var r := [items[0]] + tail;
        assert KeepFirst(items, seen, key) == r;
        forall i, j | 0 <= i < j < |r| ensures key(r[i]) != key(r[j]) {
          if i == 0 {
            assert r[j] == tail[j - 1] && r[j] in tail;
            assert key(r[j]) !in seen + {k};
          } else {
            assert r[i] == tail[i - 1] && r[j] == tail[j - 1];
          }
        }
      } else {
        assert KeepFirst(items, seen, key) == KeepFirst(items[1..], seen, key);
        KeepFirstDistinct(items[1..], seen, key);
      }
    }
  }

  /** Every kept item is an input item. */
  lemma {:induction false} KeepFirstFromInput(items: seq<string>, seen: set<string>, key: string -> string, x: string)
    requires x in KeepFirst(items, seen, key)
    ensures x in items
  {
    var k := key(items[0]);
    if k != [] && |k| > 2 && k !in seen {
      if x != items[0] {
        KeepFirstFromInput(items[1..], seen + {k}, key, x);
      }
    } else {
      KeepFirstFromInput(items[1..], seen, key, x);
    }
  }

  /** Nothing is lost: every item whose key is long enough is represented by a kept item
      with the same key, unless that key was seen before. */
  lemma {:induction false} KeepFirstComplete(items: seq<string>, seen: set<string>, key: string -> string, s: string)
    requires s in items && |key(s)| > 2
    ensures key(s) in seen || exists x :: x in KeepFirst(items, seen, key) && key(x) == key(s)
  {
    var k := key(items[0]);
    if k != [] && |k| > 2 && k !in seen {
      if s != items[0] {
        KeepFirstComplete(items[1..], seen + {k}, key, s);
      }
      assert items[0] in KeepFirst(items, seen, key);
    } else if s != items[0] {
      KeepFirstComplete(items[1..], seen, key, s);
    }
  }

  /** Whether `items[i]` is the first item of its key: a key of more than two characters,
      not seen before and not carried by an earlier item. */
  predicate FirstOfKey(items: seq<string>, seen: set<string>, key: string -> string, i: nat)
    requires i < |items|
  {
    |key(items[i])| > 2 && key(items[i]) !in seen && forall k :: 0 <= k < i ==> key(items[k]) != key(items[i])
  }

  function Shift(idx: seq<nat>): (r: seq<nat>) {
    seq(|idx|, j requires 0 <= j < |idx| => idx[j] + 1)
  }

  /** The positions in `items` of the items `KeepFirst` keeps. */
  function KeptAt(items: seq<string>, seen: set<string>, key: string -> string): seq<nat> {
    if items == [] then []
    else
      var k := key(items[0]);
      if k != [] && |k| > 2 && k !in seen then [0] + Shift(KeptAt(items[1..], seen + {k}, key))
      else Shift(KeptAt(items[1..], seen, key))
  }

  lemma ShiftFacts(t: seq<nat>)
    ensures |Shift(t)| == |t| && forall j :: 0 <= j < |t| ==> Shift(t)[j] == t[j] + 1
    ensures forall i: int :: i in Shift(t) <==> 0 < i && i - 1 in t
  {
    var s := Shift(t);
    forall i: int ensures i in s <==> 0 < i && i - 1 in t {
      if i in s {
        var j :| 0 <= j < |s| && s[j] == i;
        assert t[j] == i - 1;
      }
      if 0 < i && i - 1 in t {
        var j :| 0 <= j < |t| && t[j] == i - 1;
        assert s[j] == i;
      }
    }
  }

  /** Dropping the head item: position `i` is first of its key in `items` exactly when
      position `i - 1` is in the rest, with the head's key added to the seen keys when the
      head is kept. */
  lemma FirstOfKeyTail(items: seq<string>, seen: set<string>, key: string -> string, i: nat)
    requires 0 < i < |items|
    ensures var k := key(items[0]);
      var seen1 := if k != [] && |k| > 2 && k !in seen then seen + {k} else seen;
      FirstOfKey(items[1..], seen1, key, i - 1) <==> FirstOfKey(items, seen, key, i)
  {
    var k := key(items[0]);
    var seen1 := if k != [] && |k| > 2 && k !in seen then seen + {k} else seen;
    var tail := items[1..];
    assert tail[i - 1] == items[i];
    if FirstOfKey(tail, seen1, key, i - 1) {
      forall m | 0 <= m < i ensures key(items[m]) != key(items[i]) {
        if m > 0 {
          assert tail[m - 1] == items[m];
        }
      }
    }
    if FirstOfKey(items, seen, key, i) {
      forall m | 0 <= m < i - 1 ensures key(tail[m]) != key(tail[i - 1]) {
        assert tail[m] == items[m + 1];
      }
    }
  }

  /** The kept items sit at strictly increasing positions of the input. */
  lemma {:induction false} KeptAtPositions(items: seq<string>, seen: set<string>, key: string -> string)
    ensures var r := KeepFirst(items, seen, key);
      var idx := KeptAt(items, seen, key);
      && |idx| == |r|
      && (forall j :: 0 <= j < |idx| ==> idx[j] < |items| && r[j] == items[idx[j]])
      && (forall i, j :: 0 <= i < j < |idx| ==> idx[i] < idx[j])
  {
    if items != [] {
      var k := key(items[0]);
      var kept := k != [] && |k| > 2 && k !in seen;
      var seen1 := if kept then seen + {k} else seen;
      var tail := items[1..];
      var t := KeptAt(tail, seen1, key);
      KeptAtPositions(tail, seen1, key);
      ShiftFacts(t);
      var s := Shift(t);
      var idx := KeptAt(items, seen, key);
      var r := KeepFirst(items, seen, key);
      if kept {
        assert idx == [0] + s && r == [items[0]] + KeepFirst(tail, seen1, key);
        forall j | 0 < j < |idx| ensures idx[j] < |items| && r[j] == items[idx[j]] {
          assert idx[j] == t[j - 1] + 1;
        }
      } else {
        assert idx == s && r == KeepFirst(tail, seen1, key);
      }
    }
  }

  /** A position is kept exactly when its item is the first of its key. */
  lemma {:induction false} KeptAtFirst(items: seq<string>, seen: set<string>, key: string -> string)
    ensures var idx := KeptAt(items, seen, key);
      forall i :: 0 <= i < |items| ==> (i in idx <==> FirstOfKey(items, seen, key, i))
  {
    if items != [] {
      var k := key(items[0]);
      var kept := k != [] && |k| > 2 && k !in seen;
      var seen1 := if kept then seen + {k} else seen;
      var tail := items[1..];
      var t := KeptAt(tail, seen1, key);
      KeptAtFirst(tail, seen1, key);
      ShiftFacts(t);
      var idx := KeptAt(items, seen, key);
      assert idx == if kept then [0] + Shift(t) else Shift(t);
      forall i | 0 <= i < |items| ensures i in idx <==> FirstOfKey(items, seen, key, i) {
        if i > 0 {
          FirstOfKeyTail(items, seen, key, i);
        }
      }
    }
  }

  /** The kept items are the first item of each key, in input order. */
  lemma KeepFirstOrder(items: seq<string>, seen: set<string>, key: string -> string)
    ensures var r := KeepFirst(items, seen, key);
      var idx := KeptAt(items, seen, key);
      && |idx| == |r|
      && (forall j :: 0 <= j < |idx| ==> idx[j] < |items| && r[j] == items[idx[j]])
      && (forall i, j :: 0 <= i < j < |idx| ==> idx[i] < idx[j])
      && (forall i :: 0 <= i < |items| ==> (i in idx <==> FirstOfKey(items, seen, key, i)))
  {
    KeptAtPositions(items, seen, key);
    KeptAtFirst(items, seen, key);
  }

  function StripAll(items: seq<string>): (r: seq<string>)
    ensures |r| == |items|
  {
    if items == [] then [] else [Strip(items[0])] + StripAll(items[1..])
  }

  lemma StripAllCons(x: string, items: seq<string>)
    ensures StripAll([x] + items) == [Strip(x)] + StripAll(items)
  {
    assert ([x] + items)[1..] == items;
  }

  lemma {:induction false} StripAllAt(items: seq<string>, i: nat)
    requires i < |items|
    ensures StripAll(items)[i] == Strip(items[i])
  {
    if i > 0 {
      StripAllAt(items[1..], i - 1);
    }
  }

  /** What `_merge_dedup_subtopics` returns for the concatenated subtopic lists. */
  function DedupSubtopics(items: seq<string>): seq<string> {
    StripAll(KeepFirst(items, {}, Normalize))
  }

  /** One turn of the dedup loop: the kept items still to come shrink by the head item,
      which is appended when its key is new and long enough. */
  lemma DedupStep(result: seq<string>, items: seq<string>, seen: set<string>, key: string -> string,
                  target: seq<string>)
    requires items != [] && result + StripAll(KeepFirst(items, seen, key)) == target
    ensures var k := key(items[0]);
      if k != [] && |k| > 2 && k !in seen
      then (result + [Strip(items[0])]) + StripAll(KeepFirst(items[1..], seen + {k}, key)) == target
      else result + StripAll(KeepFirst(items[1..], seen, key)) == target
  {
    var k := key(items[0]);
    if k != [] && |k| > 2 && k !in seen {
      var tail := KeepFirst(items[1..], seen + {k}, key);
      assert KeepFirst(items, seen, key) == [items[0]] + tail;
      StripAllCons(items[0], tail);
    }
  }

  /** The facts about the stripped first-of-each-key items, for a key that stripping does
      not change. */
  lemma StrippedKept(items: seq<string>, key: string -> string)
    requires forall s :: key(Strip(s)) == key(s)
    ensures var r := StripAll(KeepFirst(items, {}, key));
      && (forall x :: x in r ==> NoSpaceAtEnds(x) && |key(x)| > 2)
      && KeysDistinct(r, key)
      && (forall x :: x in r ==> exists s :: s in items && x == Strip(s))
      && (forall s :: s in items && |key(s)| > 2 ==> exists x :: x in r && key(x) == key(s))
  {
    var kept := KeepFirst(items, {}, key);
    var r := StripAll(kept);
    KeepFirstDistinct(items, {}, key);
    forall i, j | 0 <= i < j < |r| ensures key(r[i]) != key(r[j]) {
      StripAllAt(kept, i);
      StripAllAt(kept, j);
    }
    forall x | x in r ensures NoSpaceAtEnds(x) && |key(x)| > 2 && exists s :: s in items && x == Strip(s) {
      var i :| 0 <= i < |r| && r[i] == x;
      StripAllAt(kept, i);
      StripFacts(kept[i]);
      assert kept[i] in kept;
      KeepFirstFromInput(items, {}, key, kept[i]);
    }
    forall s | s in items && |key(s)| > 2 ensures exists x :: x in r && key(x) == key(s) {
      KeepFirstComplete(items, {}, key, s);
      var y :| y in kept && key(y) == key(s);
      var i :| 0 <= i < |kept| && kept[i] == y;
      StripAllAt(kept, i);
      assert r[i] in r;
    }
  }

  /** The merged subtopics are stripped, have normalized texts of more than two characters
      that are pairwise distinct, each comes from an input, and every input with such a
      normalized text is represented. */
  lemma MergedSubtopics(items: seq<string>)
    ensures var r := DedupSubtopics(items);
      && (forall x :: x in r ==> NoSpaceAtEnds(x) && |Normalize(x)| > 2)
      && KeysDistinct(r, Normalize)
      && (forall x :: x in r ==> exists s :: s in items && x == Strip(s))
      && (forall s :: s in items && |Normalize(s)| > 2 ==> exists x :: x in r && Normalize(x) == Normalize(s))
  {
    forall s ensures Normalize(Strip(s)) == Normalize(s) {
      NormalizeStrip(s);
    }
    StrippedKept(items, Normalize);
  }

  /** The merged subtopics are, in input order, the stripped first item of each normalized
      text of more than two characters: the `j`-th comes from input position `idx[j]`, the
      positions increase, and a position is used exactly when no earlier item has its
      normalized text. */
  lemma MergedSubtopicsOrder(items: seq<string>)
    ensures var r := DedupSubtopics(items);
      var idx := KeptAt(items, {}, Normalize);
      && |idx| == |r|
      && (forall j :: 0 <= j < |idx| ==> idx[j] < |items| && r[j] == Strip(items[idx[j]]))
      && (forall i, j :: 0 <= i < j < |idx| ==> idx[i] < idx[j])
      && (forall i :: 0 <= i < |items| ==> (i in idx <==> FirstOfKey(items, {}, Normalize, i)))
  {
    var kept := KeepFirst(items, {}, Normalize);
    KeepFirstOrder(items, {}, Normalize);
    forall j | 0 <= j < |kept| ensures DedupSubtopics(items)[j] == Strip(kept[j]) {
      StripAllAt(kept, j);
    }
  }

  /** The inner loop of `_merge_dedup_subtopics`, over one chunk's list. */
  method MergeSubtopicList(lst: seq<string>, ghost rest: seq<string>, seen: set<string>,
                           result: seq<string>, ghost target: seq<string>)
    returns (seen': set<string>, result': seq<string>)
    requires result + StripAll(KeepFirst(lst + rest, seen, Normalize)) == target
    ensures result' + StripAll(KeepFirst(rest, seen', Normalize)) == target
  {
    seen', result' := seen, result;
    ghost var todo := lst + rest;
    var j := 0;
    while j < |lst|
      invariant 0 <= j <= |lst| && todo == lst[j..] + rest
      invariant result' + StripAll(KeepFirst(todo, seen', Normalize)) == target
    {
      var s := lst[j];
      assert todo[0] == s && todo[1..] == lst[j + 1..] + rest;
      DedupStep(result', todo, seen', Normalize, target);
      var norm := Normalize(s);
      if norm != [] && |norm| > 2 && norm !in seen' {
        seen' := seen' + {norm};
        result' := result' + [Strip(s)];
      }
      todo := todo[1..];
      j := j + 1;
    }
    assert lst[j..] + rest == rest;
  }

  /** `_merge_dedup_subtopics`: the subtopic lists of all chunks, merged in order. */
  method MergeDedupSubtopics(rawLists: seq<seq<string>>) returns (result: seq<string>)
    ensures result == DedupSubtopics(Flatten(rawLists))
  {
    ghost var target := DedupSubtopics(Flatten(rawLists));
    var seen: set<string> := {};
    result := [];
    var i := 0;
    while i < |rawLists|
      invariant 0 <= i <= |rawLists|
      invariant result + StripAll(KeepFirst(Flatten(rawLists[i..]), seen, Normalize)) == target
    {
      FlattenCons(rawLists, i);
      seen, result := MergeSubtopicList(rawLists[i], Flatten(rawLists[i + 1..]), seen, result, target);
      i := i + 1;
    }
    assert rawLists[i..] == [];
  }
}
