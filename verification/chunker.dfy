/** The chunker of convert_corpus.py: `handleLongSentence`, which packs the
    words of an over-long sentence into token-bounded pieces, and
    `splitIntoChunks`, which packs sentences paragraph by paragraph into
    chunks of at most `maxTokens` tokens; plus `addAnnotations`.

    The tokenizer and the two segmenters are parameters: `count` stands for
    tiktoken's `countTokens`, `sentences` for nltk's `sent_tokenize` and
    `words` for `word_tokenize`. The only thing assumed of them is that the
    empty string has no tokens. */
module Chunker {
  import opened Text

  datatype Nlp = Nlp(count: string -> nat, sentences: string -> seq<string>, words: string -> seq<string>)

  /** What `handleLongSentence` needs to terminate: a positive budget and a
      tokenizer that gives the empty string no tokens. */
  predicate Ready(nlp: Nlp, max: int)
  {
    max > 0 && nlp.count("") == 0
  }

  // ---------------------------------------------------------------------------
  // handleLongSentence

  /** The words appended without a leading space. The dash entry is the
      three characters U+00E2 U+20AC U+201D, an em dash's UTF-8 bytes read
      as Windows-1252, exactly as the source spells it. */
  const Punctuation: seq<string> :=
    ["!", ",", ".", "?", ";", ":", "(", ")", "{", "}", "[", "]", "'", "\"",
     "\U{E2}\U{20AC}\U{201D}", "-", "..."]

  /** The piece appended for `w`: the bare word when it is punctuation or
      starts the chunk, the word after one space otherwise. */
  function Piece(w: string, first: bool): string
  {
    if w in Punctuation || first then w else " " + w
  }

  /** The list `currentChunk` holds after appending the words `ws` to an
      empty chunk, one piece per word. */
  function Pieces(ws: seq<string>): (r: seq<string>)
    ensures |r| == |ws|
  {
    seq(|ws|, k requires 0 <= k < |ws| => Piece(ws[k], k == 0))
  }

  /** `''.join(currentChunk)` for a chunk built from the words `ws`. */
  function Render(ws: seq<string>): (r: string)
    ensures ws == [] ==> r == ""
  {
    Flatten(Pieces(ws))
  }

  lemma PiecesSnoc(ws: seq<string>, w: string)
    ensures Pieces(ws + [w]) == Pieces(ws) + [Piece(w, |ws| == 0)]
  {
  }

  /** `countTokens(''.join(currentChunk))` for the chunk built from a group of words. */
  function ChunkCost(count: string -> nat): (r: seq<string> -> nat)
    ensures r([]) == count("")
  {
    assert Render([]) == "";
    g => count(Render(g))
  }

  /** The words of each chunk `handleLongSentence` emits, from word `index`
      on, when the chunk being built already holds the words `group`; `cost`
      is the token count of a group's rendering. Each round takes up to
      `spaceLeft` further words, which is at least 1 because an unflushed
      chunk stays below the budget; the chunk is flushed when it reaches the
      budget or the words run out. */
  function LongGroups(cost: seq<string> -> nat, words: seq<string>, max: int, index: nat, group: seq<string>): (r: seq<seq<string>>)
    requires max > 0 && cost([]) == 0
    requires cost(group) < max
    requires index >= |words| ==> group == []
    decreases |words| - index
  {
    if index >= |words| then []
    else
      var spaceLeft := max - cost(group);
      var stop := if index + spaceLeft < |words| then index + spaceLeft else |words|;
      var g := group + words[index..stop];
      var next := index + spaceLeft;
      if cost(g) >= max || next >= |words| then [g] + LongGroups(cost, words, max, next, [])
      else LongGroups(cost, words, max, next, g)
  }

  /** The chunk emitted for a group of words: its rendering, stripped. */
  function ChunkText(g: seq<string>): string
  {
    Strip(Render(g))
  }

  /** One chunk per group of words. */
  function LongChunks(groups: seq<seq<string>>): seq<string>
  {
    Map(ChunkText, groups)
  }

  lemma EmptyCost(count: string -> nat)
    requires count("") == 0
    ensures ChunkCost(count)([]) == 0
  {
    assert Render([]) == "";
  }

  /** `handleLongSentence(sentence, maxTokens)`. */
  function HandleLongSentence(nlp: Nlp, sentence: string, max: int): seq<string>
    requires Ready(nlp, max)
  {
    EmptyCost(nlp.count);
    LongChunks(LongGroups(ChunkCost(nlp.count), nlp.words(sentence), max, 0, []))
  }

  /** The groups hold every remaining word exactly once, in order, after
      the words already in the chunk being built. */
  lemma {:induction false} LongGroupsFlatten(cost: seq<string> -> nat, words: seq<string>, max: int, index: nat, group: seq<string>)
    requires max > 0 && cost([]) == 0
    requires cost(group) < max
    requires index >= |words| ==> group == []
    ensures Flatten(LongGroups(cost, words, max, index, group)) == group + (if index < |words| then words[index..] else [])
    decreases |words| - index
  {
    if index < |words| {
      var spaceLeft := max - cost(group);
      var stop := if index + spaceLeft < |words| then index + spaceLeft else |words|;
      var seg := words[index..stop];
      var g := group + seg;
      var next := index + spaceLeft;
      var rest := if next < |words| then words[next..] else [];
      assert words[index..] == seg + rest;
      AppendAssoc(group, seg, rest);
      if cost(g) >= max || next >= |words| {
        LongGroupsFlatten(cost, words, max, next, []);
        var tail := LongGroups(cost, words, max, next, []);
        FlattenAppend([g], tail);
        assert Flatten([g]) == g + Flatten([g][1..]);
        assert [g][1..] == [];
        assert [] + rest == rest;
      } else {
        LongGroupsFlatten(cost, words, max, next, g);
      }
    }
  }

  /** Every group is non-empty, and every group but the last reached the budget. */
  lemma {:induction false} LongGroupsShape(cost: seq<string> -> nat, words: seq<string>, max: int, index: nat, group: seq<string>)
    requires max > 0 && cost([]) == 0
    requires cost(group) < max
    requires index >= |words| ==> group == []
    ensures forall j :: 0 <= j < |LongGroups(cost, words, max, index, group)| ==> |LongGroups(cost, words, max, index, group)[j]| > 0
    ensures forall j :: 0 <= j < |LongGroups(cost, words, max, index, group)| - 1 ==> cost(LongGroups(cost, words, max, index, group)[j]) >= max
    decreases |words| - index
  {
    if index < |words| {
      var spaceLeft := max - cost(group);
      var stop := if index + spaceLeft < |words| then index + spaceLeft else |words|;
      var g := group + words[index..stop];
      var next := index + spaceLeft;
      var r := LongGroups(cost, words, max, index, group);
      if cost(g) >= max || next >= |words| {
        LongGroupsShape(cost, words, max, next, []);
        var tail := LongGroups(cost, words, max, next, []);
        assert r == [g] + tail;
        assert next >= |words| ==> tail == [];
        forall j | 0 <= j < |r|
          ensures |r[j]| > 0 && (j < |r| - 1 ==> cost(r[j]) >= max)
        {
          if j > 0 {
            assert r[j] == tail[j - 1];
          }
        }
      } else {
        assert r == LongGroups(cost, words, max, next, g);
        LongGroupsShape(cost, words, max, next, g);
      }
    }
  }

  /** `handleLongSentence` emits, in order, the stripped renderings of
      non-empty groups that together are exactly the sentence's words; every
      chunk but the last reached the budget before stripping; no words give
      no chunks. */
  lemma HandleLongSentenceSplitsWords(nlp: Nlp, sentence: string, max: int)
    requires Ready(nlp, max)
    ensures var words := nlp.words(sentence);
            var cost := ChunkCost(nlp.count);
            var groups := LongGroups(cost, words, max, 0, []);
            var r := HandleLongSentence(nlp, sentence, max);
            && Flatten(groups) == words
            && |r| == |groups|
            && (forall j :: 0 <= j < |r| ==> |groups[j]| > 0 && r[j] == ChunkText(groups[j]))
            && (forall j :: 0 <= j < |r| - 1 ==> nlp.count(Render(groups[j])) >= max)
            && (|words| == 0 <==> r == [])
  {
    var words := nlp.words(sentence);
    var cost := ChunkCost(nlp.count);
    EmptyCost(nlp.count);
    LongGroupsFlatten(cost, words, max, 0, []);
    LongGroupsShape(cost, words, max, 0, []);
    var groups := LongGroups(cost, words, max, 0, []);
    if |groups| == 0 {
      assert Flatten(groups) == [];
    }
  }

  /** Appending a word to the chunk extends its rendering by the word alone
      when it is punctuation or the chunk is empty, and by a space and the
      word otherwise. */
  lemma RenderSnoc(ws: seq<string>, w: string)
    ensures Render(ws + [w]) == Render(ws) + (if |ws| == 0 || w in Punctuation then w else " " + w)
  {
    PiecesSnoc(ws, w);
    FlattenAppend(Pieces(ws), [Piece(w, |ws| == 0)]);
    assert Flatten([Piece(w, |ws| == 0)]) == Piece(w, |ws| == 0) + Flatten([Piece(w, |ws| == 0)][1..]);
  }

  /** A chunk without punctuation words renders as its words separated by
      single spaces. */
  lemma {:induction false} RenderPlainWords(ws: seq<string>)
    requires |ws| > 0
    requires forall k :: 0 <= k < |ws| ==> ws[k] !in Punctuation
    ensures Render(ws) == Join(" ", ws)
    decreases |ws|
  {
    if |ws| == 1 {
      RenderSnoc([], ws[0]);
      assert [] + [ws[0]] == ws;
    } else {
      var init, w := ws[..|ws| - 1], ws[|ws| - 1];
      assert init + [w] == ws;
      RenderPlainWords(init);
      RenderSnoc(init, w);
      JoinSnoc(" ", init, w);
    }
  }

  /** The inner loop of `handleLongSentence`: one piece per word of the
      segment, bare when punctuation or when the chunk is still empty. */
  method AppendSegment(current: seq<string>, ghost group: seq<string>, segment: seq<string>) returns (next: seq<string>)
    requires current == Pieces(group)
    ensures next == Pieces(group + segment)
  {
    next := current;
    var k := 0;
    while k < |segment|
      invariant 0 <= k <= |segment|
      invariant next == Pieces(group + segment[..k])
    {
      var word := segment[k];
      PiecesSnoc(group + segment[..k], word);
      assert group + segment[..k + 1] == group + segment[..k] + [word];
      if word in Punctuation || |next| == 0 {
        next := next + [word];
      } else {
        next := next + [" " + word];
      }
      k := k + 1;
    }
    assert segment[..k] == segment;
  }

  /** One round of the loop keeps the chunks still to come in step with
      `LongGroups`: `g` is the group after the round and `next` the index
      of the first word not yet taken. */
  lemma RoundKeeps(cost: seq<string> -> nat, words: seq<string>, max: int, index: nat, group: seq<string>,
                   chunks: seq<string>, total: seq<string>, g: seq<string>, next: nat)
    requires max > 0 && cost([]) == 0
    requires cost(group) < max
    requires index < |words|
    requires next == index + (max - cost(group))
    requires g == group + words[index..if next < |words| then next else |words|]
    requires chunks + LongChunks(LongGroups(cost, words, max, index, group)) == total
    ensures cost(g) >= max || next >= |words| ==> (chunks + [ChunkText(g)]) + LongChunks(LongGroups(cost, words, max, next, [])) == total
    ensures cost(g) < max && next < |words| ==> chunks + LongChunks(LongGroups(cost, words, max, next, g)) == total
  {
    if cost(g) >= max || next >= |words| {
      var tail := LongGroups(cost, words, max, next, []);
      assert LongGroups(cost, words, max, index, group) == [g] + tail;
      MapCons(ChunkText, g, tail);
      AppendAssoc(chunks, [ChunkText(g)], LongChunks(tail));
    } else {
      assert LongGroups(cost, words, max, index, group) == LongGroups(cost, words, max, next, g);
    }
  }

  /** The pieces built for a group render to the group's chunk. */
  lemma Rendered(count: string -> nat, group: seq<string>, current: seq<string>)
    requires current == Pieces(group)
    ensures ChunkCost(count)(group) == count(Flatten(current))
    ensures ChunkText(group) == Strip(Flatten(current))
  {
    var f := ChunkCost(count);
    assert f(group) == count(Render(group));
  }

  /** `handleLongSentence` as the source writes it: an outer loop over
      rounds around the inner loop over the round's words. */
  method HandleLongSentenceLoop(nlp: Nlp, sentence: string, max: int) returns (chunks: seq<string>)
    requires Ready(nlp, max)
    ensures chunks == HandleLongSentence(nlp, sentence, max)
  {
    var words := nlp.words(sentence);
    ghost var cost := ChunkCost(nlp.count);
    EmptyCost(nlp.count);
    chunks := [];
    var current: seq<string> := [];
    ghost var group: seq<string> := [];
    var wordIndex := 0;
    ghost var total := LongChunks(LongGroups(cost, words, max, 0, []));
    while wordIndex < |words|
      invariant current == Pieces(group)
      invariant cost(group) < max
      invariant wordIndex >= |words| ==> group == []
      invariant chunks + LongChunks(LongGroups(cost, words, max, wordIndex, group)) == total
      decreases |words| - wordIndex
    {
      Rendered(nlp.count, group, current);
      var spaceLeft := max - nlp.count(Flatten(current));
      var stop := if wordIndex + spaceLeft < |words| then wordIndex + spaceLeft else |words|;
      var segment := words[wordIndex..stop];
      current := AppendSegment(current, group, segment);
      ghost var g := group + segment;
      Rendered(nlp.count, g, current);
      RoundKeeps(cost, words, max, wordIndex, group, chunks, total, g, wordIndex + spaceLeft);
      wordIndex := wordIndex + spaceLeft;
      if nlp.count(Flatten(current)) >= max || wordIndex >= |words| {
        chunks := chunks + [Strip(Flatten(current))];
        current := [];
        group := [];
      } else {
        group := g;
      }
    }
    assert total == HandleLongSentence(nlp, sentence, max);
  }

  // ---------------------------------------------------------------------------
  // splitIntoChunks

  /** An entry of `currentChunk`: a sentence, or the paragraph marker "\n". */
  datatype Item = Sentence(text: string) | Break

  function ItemText(i: Item): string
  {
    match i
    case Sentence(t) => t
    case Break => "\n"
  }

  function ItemTexts(items: seq<Item>): (r: seq<string>)
    ensures |r| == |items|
    ensures forall k :: 0 <= k < |items| ==> r[k] == ItemText(items[k])
  {
    seq(|items|, k requires 0 <= k < |items| => ItemText(items[k]))
  }

  /** `' '.join(currentChunk)`. */
  function BufText(items: seq<Item>): string
  {
    Join(" ", ItemTexts(items))
  }

  lemma BufTextSnoc(items: seq<Item>, x: Item)
    ensures BufText(items + [x]) == if |items| == 0 then ItemText(x) else BufText(items) + " " + ItemText(x)
  {
    assert ItemTexts(items + [x]) == ItemTexts(items) + [ItemText(x)];
    JoinSnoc(" ", ItemTexts(items), ItemText(x));
  }

  /** What the loop appends to `chunks`, before rendering: a flushed buffer,
      or an over-long sentence that `handleLongSentence` splits. */
  datatype Block = Flushed(items: seq<Item>) | Long(sentence: string)

  /** The loop state: the blocks emitted so far and `currentChunk`. */
  datatype Acc = Acc(out: seq<Block>, buf: seq<Item>)

  /** The routing of one sentence. */
  function SentenceStep(nlp: Nlp, max: int, acc: Acc, s: string): Acc
  {
    if nlp.count(s) > max then
      Acc(acc.out + (if |acc.buf| > 0 then [Flushed(acc.buf)] else []) + [Long(s)], [])
    else if nlp.count(BufText(acc.buf) + " " + s) <= max then
      Acc(acc.out, acc.buf + [Sentence(s)])
    else
      Acc(acc.out + [Flushed(acc.buf)], [Sentence(s)])
  }

  function SentencesStep(nlp: Nlp, max: int, acc: Acc, ss: seq<string>): Acc
    decreases |ss|
  {
    if |ss| == 0 then acc else SentencesStep(nlp, max, SentenceStep(nlp, max, acc, ss[0]), ss[1..])
  }

  /** The paragraph marker goes only onto a non-empty buffer. */
  function ParagraphEnd(acc: Acc): Acc
  {
    if |acc.buf| > 0 then Acc(acc.out, acc.buf + [Break]) else acc
  }

  function ParagraphsStep(nlp: Nlp, max: int, acc: Acc, ps: seq<string>): Acc
    decreases |ps|
  {
    if |ps| == 0 then acc
    else ParagraphsStep(nlp, max, ParagraphEnd(SentencesStep(nlp, max, acc, nlp.sentences(ps[0]))), ps[1..])
  }

  /** The loop over all paragraphs, starting from no chunks and an empty buffer. */
  function Fold(nlp: Nlp, text: string, max: int): Acc
  {
    ParagraphsStep(nlp, max, Acc([], []), Split(text, '\n'))
  }

  function RenderBlock(nlp: Nlp, max: int, b: Block): seq<string>
    requires Ready(nlp, max)
  {
    match b
    case Flushed(items) => [BufText(items)]
    case Long(s) => HandleLongSentence(nlp, s, max)
  }

  function RenderBlocks(nlp: Nlp, max: int, bs: seq<Block>): seq<string>
    requires Ready(nlp, max)
  {
    if |bs| == 0 then [] else RenderBlock(nlp, max, bs[0]) + RenderBlocks(nlp, max, bs[1..])
  }

  /** `splitIntoChunks(text, maxTokens)`: the emitted blocks in order, then
      the remaining buffer joined and stripped, if any. Only that last chunk
      is stripped. */
  function SplitIntoChunks(nlp: Nlp, text: string, max: int): seq<string>
    requires Ready(nlp, max)
  {
    var acc := Fold(nlp, text, max);
    RenderBlocks(nlp, max, acc.out) + (if |acc.buf| > 0 then [Strip(BufText(acc.buf))] else [])
  }

  // ---------------------------------------------------------------------------
  // What the fold keeps

  /** A buffer as the loop keeps it: when non-empty it starts with a sentence, every
      sentence in it is within the budget, and whenever its last entry is a
      sentence, the whole joined buffer is within the budget. */
  predicate Budgeted(nlp: Nlp, max: int, items: seq<Item>)
  {
    && (|items| > 0 ==> items[0].Sentence?)
    && (forall k :: 0 <= k < |items| && items[k].Sentence? ==> nlp.count(items[k].text) <= max)
    && (|items| > 0 && items[|items| - 1].Sentence? ==> nlp.count(BufText(items)) <= max)
  }

  /** Long blocks hold only over-budget sentences; flushed blocks are
      buffers as the loop keeps them. */
  predicate BlockOk(nlp: Nlp, max: int, b: Block)
  {
    match b
    case Long(s) => nlp.count(s) > max
    case Flushed(items) => Budgeted(nlp, max, items)
  }

  predicate Inv(nlp: Nlp, max: int, acc: Acc)
  {
    Budgeted(nlp, max, acc.buf) && forall k :: 0 <= k < |acc.out| ==> BlockOk(nlp, max, acc.out[k])
  }

  lemma SentenceStepKeepsInv(nlp: Nlp, max: int, acc: Acc, s: string)
    requires Inv(nlp, max, acc)
    ensures Inv(nlp, max, SentenceStep(nlp, max, acc, s))
  {
    var buf := acc.buf;
    if nlp.count(s) <= max {
      BufTextSnoc(buf, Sentence(s));
      BufTextSnoc([], Sentence(s));
      assert [] + [Sentence(s)] == [Sentence(s)];
    }
  }

  lemma {:induction false} SentencesKeepInv(nlp: Nlp, max: int, acc: Acc, ss: seq<string>)
    requires Inv(nlp, max, acc)
    ensures Inv(nlp, max, SentencesStep(nlp, max, acc, ss))
    decreases |ss|
  {
    if |ss| > 0 {
      SentenceStepKeepsInv(nlp, max, acc, ss[0]);
      SentencesKeepInv(nlp, max, SentenceStep(nlp, max, acc, ss[0]), ss[1..]);
    }
  }

  lemma {:induction false} ParagraphsKeepInv(nlp: Nlp, max: int, acc: Acc, ps: seq<string>)
    requires Inv(nlp, max, acc)
    ensures Inv(nlp, max, ParagraphsStep(nlp, max, acc, ps))
    decreases |ps|
  {
    if |ps| > 0 {
      var a := SentencesStep(nlp, max, acc, nlp.sentences(ps[0]));
      SentencesKeepInv(nlp, max, acc, nlp.sentences(ps[0]));
      ParagraphsKeepInv(nlp, max, ParagraphEnd(a), ps[1..]);
    }
  }

  /** Routing: an over-budget sentence never enters a buffer and is split on
      its own; every non-empty flushed buffer starts with a sentence (never
      with the paragraph marker), every flushed buffer holds only sentences
      within the budget, and, unless it ends with a marker, is within the
      budget as a whole. An empty buffer can be flushed: see EmptyChunkExample. */
  lemma FoldRoutes(nlp: Nlp, text: string, max: int)
    ensures Inv(nlp, max, Fold(nlp, text, max))
  {
    ParagraphsKeepInv(nlp, max, Acc([], []), Split(text, '\n'));
  }

  // ---------------------------------------------------------------------------
  // Order and conservation

  /** The sentences among `items`, in order. */
  function ItemSentences(items: seq<Item>): seq<string>
  {
    if |items| == 0 then []
    else (if items[0].Sentence? then [items[0].text] else []) + ItemSentences(items[1..])
  }

  function BlockSentences(b: Block): seq<string>
  {
    match b
    case Flushed(items) => ItemSentences(items)
    case Long(s) => [s]
  }

  function BlocksSentences(bs: seq<Block>): seq<string>
  {
    if |bs| == 0 then [] else BlockSentences(bs[0]) + BlocksSentences(bs[1..])
  }

  /** All sentences of the fold state, in the order they were emitted. */
  function AccSentences(acc: Acc): seq<string>
  {
    BlocksSentences(acc.out) + ItemSentences(acc.buf)
  }

  lemma {:induction false} ItemSentencesAppend(a: seq<Item>, b: seq<Item>)
    ensures ItemSentences(a + b) == ItemSentences(a) + ItemSentences(b)
  {
    if |a| == 0 {
      assert a + b == b;
    } else {
      assert (a + b)[0] == a[0];
      assert (a + b)[1..] == a[1..] + b;
      ItemSentencesAppend(a[1..], b);
      AppendAssoc(if a[0].Sentence? then [a[0].text] else [], ItemSentences(a[1..]), ItemSentences(b));
    }
  }

  lemma {:induction false} BlocksSentencesAppend(a: seq<Block>, b: seq<Block>)
    ensures BlocksSentences(a + b) == BlocksSentences(a) + BlocksSentences(b)
  {
    if |a| == 0 {
      assert a + b == b;
    } else {
      assert (a + b)[0] == a[0];
      assert (a + b)[1..] == a[1..] + b;
      BlocksSentencesAppend(a[1..], b);
      AppendAssoc(BlockSentences(a[0]), BlocksSentences(a[1..]), BlocksSentences(b));
    }
  }

  lemma BlocksSentencesOne(b: Block)
    ensures BlocksSentences([b]) == BlockSentences(b)
  {
    assert [b][1..] == [];
  }

  lemma ItemSentencesOne(x: Item)
    ensures ItemSentences([x]) == if x.Sentence? then [x.text] else []
  {
    assert [x][1..] == [];
  }

  /** Each step passes the sentence along: the emitted and buffered
      sentences grow by exactly `s`, at the end. */
  lemma SentenceStepConserves(nlp: Nlp, max: int, acc: Acc, s: string)
    ensures AccSentences(SentenceStep(nlp, max, acc, s)) == AccSentences(acc) + [s]
  {
    var out, buf := acc.out, acc.buf;
    var flushed: seq<Block> := if |buf| > 0 then [Flushed(buf)] else [];
    ItemSentencesOne(Sentence(s));
    if nlp.count(s) > max {
      BlocksSentencesAppend(out + flushed, [Long(s)]);
      BlocksSentencesAppend(out, flushed);
      BlocksSentencesOne(Long(s));
      if |buf| > 0 {
        BlocksSentencesOne(Flushed(buf));
      }
      AppendAssoc(BlocksSentences(out), BlocksSentences(flushed), [s]);
    } else if nlp.count(BufText(buf) + " " + s) <= max {
      ItemSentencesAppend(buf, [Sentence(s)]);
      AppendAssoc(BlocksSentences(out), ItemSentences(buf), [s]);
    } else {
      BlocksSentencesAppend(out, [Flushed(buf)]);
      BlocksSentencesOne(Flushed(buf));
    }
  }

  lemma {:induction false} SentencesConserve(nlp: Nlp, max: int, acc: Acc, ss: seq<string>)
    ensures AccSentences(SentencesStep(nlp, max, acc, ss)) == AccSentences(acc) + ss
    decreases |ss|
  {
    if |ss| == 0 {
      assert AccSentences(acc) + ss == AccSentences(acc);
    } else {
      var a := SentenceStep(nlp, max, acc, ss[0]);
      SentenceStepConserves(nlp, max, acc, ss[0]);
      SentencesConserve(nlp, max, a, ss[1..]);
      AppendAssoc(AccSentences(acc), [ss[0]], ss[1..]);
      assert [ss[0]] + ss[1..] == ss;
    }
  }

  lemma ParagraphEndConserves(acc: Acc)
    ensures AccSentences(ParagraphEnd(acc)) == AccSentences(acc)
  {
    if |acc.buf| > 0 {
      ItemSentencesAppend(acc.buf, [Break]);
      ItemSentencesOne(Break);
    }
  }

  /** The sentences of the paragraphs `ps`, in document order. */
  function AllSentences(nlp: Nlp, ps: seq<string>): seq<string>
  {
    if |ps| == 0 then [] else nlp.sentences(ps[0]) + AllSentences(nlp, ps[1..])
  }

  lemma {:induction false} ParagraphsConserve(nlp: Nlp, max: int, acc: Acc, ps: seq<string>)
    ensures AccSentences(ParagraphsStep(nlp, max, acc, ps)) == AccSentences(acc) + AllSentences(nlp, ps)
    decreases |ps|
  {
    if |ps| == 0 {
      assert AccSentences(acc) + [] == AccSentences(acc);
    } else {
      var ss := nlp.sentences(ps[0]);
      var a := SentencesStep(nlp, max, acc, ss);
      SentencesConserve(nlp, max, acc, ss);
      ParagraphEndConserves(a);
      ParagraphsConserve(nlp, max, ParagraphEnd(a), ps[1..]);
      AppendAssoc(AccSentences(acc), ss, AllSentences(nlp, ps[1..]));
    }
  }

  /** Order and conservation: reading the emitted blocks and then the final
      buffer gives back every sentence of every paragraph exactly once, in
      document order. */
  lemma FoldKeepsOrder(nlp: Nlp, text: string, max: int)
    ensures AccSentences(Fold(nlp, text, max)) == AllSentences(nlp, Split(text, '\n'))
  {
    ParagraphsConserve(nlp, max, Acc([], []), Split(text, '\n'));
  }

  lemma {:induction false} SilentParagraphs(nlp: Nlp, max: int, ps: seq<string>)
    requires AllSentences(nlp, ps) == []
    ensures ParagraphsStep(nlp, max, Acc([], []), ps) == Acc([], [])
    decreases |ps|
  {
    if |ps| > 0 {
      assert nlp.sentences(ps[0]) == [];
      SilentParagraphs(nlp, max, ps[1..]);
    }
  }

  /** A text in which the segmenter finds no sentence gives no chunks. */
  lemma NoSentencesNoChunks(nlp: Nlp, text: string, max: int)
    requires Ready(nlp, max)
    requires AllSentences(nlp, Split(text, '\n')) == []
    ensures SplitIntoChunks(nlp, text, max) == []
  {
    SilentParagraphs(nlp, max, Split(text, '\n'));
  }

  // ---------------------------------------------------------------------------
  // An empty chunk

  /** A tokenizer counting characters, a segmenter taking each non-empty
      paragraph as one sentence, and a word splitter that keeps the sentence
      whole. */
  function CharCount(s: string): nat { |s| }

  function OneSentence(p: string): seq<string> { if p == "" then [] else [p] }

  function WholeWords(s: string): seq<string> { [s] }

  /** The budget test for a sentence arriving at an empty buffer measures
      `' ' + sentence`, so a sentence that fits the budget exactly is sent
      after an empty chunk: here the first chunk is the empty string. */
  lemma EmptyChunkExample()
    ensures SplitIntoChunks(Nlp(CharCount, OneSentence, WholeWords), "abc", 3) == ["", "abc"]
  {
    var nlp := Nlp(CharCount, OneSentence, WholeWords);
    var a2 := Acc([Flushed([])], [Sentence("abc"), Break]);
    ExampleFold();
    ExampleRender();
    assert SplitIntoChunks(nlp, "abc", 3) == RenderBlocks(nlp, 3, a2.out) + [Strip(BufText(a2.buf))];
  }

  lemma ExampleFold()
    ensures Fold(Nlp(CharCount, OneSentence, WholeWords), "abc", 3) == Acc([Flushed([])], [Sentence("abc"), Break])
  {
    var nlp := Nlp(CharCount, OneSentence, WholeWords);
    assert Split("abc", '\n') == ["abc"];
    assert nlp.sentences("abc") == ["abc"];
    assert BufText([]) == "";
    var a1 := SentenceStep(nlp, 3, Acc([], []), "abc");
    assert a1 == Acc([Flushed([])], [Sentence("abc")]);
    assert SentencesStep(nlp, 3, Acc([], []), ["abc"]) == a1;
    assert ParagraphsStep(nlp, 3, Acc([], []), ["abc"]) == ParagraphsStep(nlp, 3, ParagraphEnd(a1), []);
  }

  lemma ExampleRender()
    ensures RenderBlocks(Nlp(CharCount, OneSentence, WholeWords), 3, [Flushed([])]) == [""]
    ensures Strip(BufText([Sentence("abc"), Break])) == "abc"
  {
    var nlp := Nlp(CharCount, OneSentence, WholeWords);
    assert RenderBlocks(nlp, 3, [Flushed([])]) == [BufText([])] + RenderBlocks(nlp, 3, []);
    ExampleBufText();
    ExampleStrip();
  }

  lemma ExampleBufText()
    ensures BufText([Sentence("abc"), Break]) == "abc \n"
  {
    assert ItemTexts([Sentence("abc"), Break]) == ["abc", "\n"];
  }

  lemma ExampleStrip()
    ensures Strip("abc \n") == "abc"
  {
    var s := "abc \n";
    assert IsSpace(s[4]) && s[..4] == "abc ";
    assert IsSpace(s[..4][3]) && s[..4][..3] == "abc";
    assert !IsSpace("abc"[2]) && !IsSpace("abc"[0]);
  }

  /** The paragraph marker is never measured: with the same tokenizer and
      budget, "abc\nd" gives a middle chunk "abc \n" of five characters,
      over the budget of three. */
  lemma OverBudgetExample()
    ensures var r := SplitIntoChunks(Nlp(CharCount, OneSentence, WholeWords), "abc\nd", 3);
            r == ["", "abc \n", "d"] && CharCount(r[1]) > 3
  {
    var nlp := Nlp(CharCount, OneSentence, WholeWords);
    var out := [Flushed([]), Flushed([Sentence("abc"), Break])];
    OverBudgetFold();
    OverBudgetRender();
    assert SplitIntoChunks(nlp, "abc\nd", 3) == RenderBlocks(nlp, 3, out) + [Strip(BufText([Sentence("d"), Break]))];
  }

  lemma OverBudgetFold()
    ensures Fold(Nlp(CharCount, OneSentence, WholeWords), "abc\nd", 3)
              == Acc([Flushed([]), Flushed([Sentence("abc"), Break])], [Sentence("d"), Break])
  {
    var nlp := Nlp(CharCount, OneSentence, WholeWords);
    assert Join(['\n'], ["abc", "d"]) == "abc\nd";
    SplitJoin(["abc", "d"], '\n');
    var b1 := Acc([Flushed([])], [Sentence("abc"), Break]);
    assert ParagraphEnd(SentencesStep(nlp, 3, Acc([], []), nlp.sentences("abc"))) == b1 by {
      assert nlp.sentences("abc") == ["abc"];
      assert BufText([]) == "";
      assert SentenceStep(nlp, 3, Acc([], []), "abc") == Acc([Flushed([])], [Sentence("abc")]);
    }
    var b2 := Acc([Flushed([]), Flushed([Sentence("abc"), Break])], [Sentence("d"), Break]);
    assert ParagraphEnd(SentencesStep(nlp, 3, b1, nlp.sentences("d"))) == b2 by {
      assert nlp.sentences("d") == ["d"];
      ExampleBufText();
      assert |BufText(b1.buf) + " " + "d"| == 7;
      assert SentenceStep(nlp, 3, b1, "d") == Acc(b1.out + [Flushed(b1.buf)], [Sentence("d")]);
    }
    assert ParagraphsStep(nlp, 3, Acc([], []), ["abc", "d"]) == ParagraphsStep(nlp, 3, b1, ["d"]);
    assert ParagraphsStep(nlp, 3, b1, ["d"]) == ParagraphsStep(nlp, 3, b2, []);
  }

  lemma OverBudgetRender()
    ensures RenderBlocks(Nlp(CharCount, OneSentence, WholeWords), 3, [Flushed([]), Flushed([Sentence("abc"), Break])]) == ["", "abc \n"]
    ensures Strip(BufText([Sentence("d"), Break])) == "d"
  {
    var nlp := Nlp(CharCount, OneSentence, WholeWords);
    var bs := [Flushed([]), Flushed([Sentence("abc"), Break])];
    assert RenderBlocks(nlp, 3, bs) == [BufText([])] + RenderBlocks(nlp, 3, bs[1..]);
    assert RenderBlocks(nlp, 3, bs[1..]) == [BufText([Sentence("abc"), Break])] + RenderBlocks(nlp, 3, []);
    ExampleBufText();
    assert ItemTexts([Sentence("d"), Break]) == ["d", "\n"];
    var t := "d \n";
    assert BufText([Sentence("d"), Break]) == t;
    assert IsSpace(t[2]) && t[..2] == "d ";
    assert IsSpace(t[..2][1]) && t[..2][..1] == "d";
    assert !IsSpace("d"[0]);
  }

  // ---------------------------------------------------------------------------
  // addAnnotations

  /** The nine information-flow parameters a chunk is annotated with. */
  const Params: seq<string> :=
    ["Sender", "Subject", "Consequence", "Modality", "Recipient",
     "Transmission-Principle", "Condition", "Aim", "Attribute"]

  function Annotation(chunk: string, param: string): string
  {
    "Annotate:" + chunk + " " + param + "--->"
  }

  /** `addAnnotations(chunkList)`: nine prompts per chunk, chunk-major. */
  function AddAnnotations(chunks: seq<string>): (r: seq<string>)
    ensures |r| == 9 * |chunks|
  {
    if |chunks| == 0 then []
    else
      var head := seq(9, j requires 0 <= j < 9 => Annotation(chunks[0], Params[j]));
      head + AddAnnotations(chunks[1..])
  }

  /** Item `9 * i + j` prompts for chunk `i` and parameter `j`. */
  lemma {:induction false} AnnotationAt(chunks: seq<string>, i: nat, j: nat)
    requires i < |chunks| && j < |Params|
    ensures AddAnnotations(chunks)[9 * i + j] == Annotation(chunks[i], Params[j])
  {
    if i > 0 {
      AnnotationAt(chunks[1..], i - 1, j);
    }
  }

  /** Every annotated item names its chunk and parameter by its position:
      item `k` is chunk `k / 9` with parameter `k % 9`. */
  lemma AnnotationsByIndex(chunks: seq<string>)
    ensures var r := AddAnnotations(chunks);
            forall k :: 0 <= k < |r| ==> r[k] == Annotation(chunks[k / 9], Params[k % 9])
  {
    var r := AddAnnotations(chunks);
    forall k | 0 <= k < |r|
      ensures r[k] == Annotation(chunks[k / 9], Params[k % 9])
    {
      var i, j := k / 9, k % 9;
      assert k == 9 * i + j;
      AnnotationAt(chunks, i, j);
    }
  }
}
