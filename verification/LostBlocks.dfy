/** Which blocks of a lesson never reach its page: those in a code fence, and quizzes inside an exercise. A
    placeholder is a line of its own, so where it went can be told line by line. */
module LostBlocks {
  import opened Text
  import opened Markdown
  import opened Blocks
  import opened Weaving
  import opened Placeholders

  /** The lines that get rendered. */
  function LinesOfLesson(body: string): seq<string> {
    Split(WithoutBlocks(body))
  }

  /** The placeholder of block k is the text of a fence. */
  predicate BlockFenced(body: string, k: nat) {
    exists j | 0 <= j < |LinesOfLesson(body)| :: LinesOfLesson(body)[j] == Token(k) && Fenced(LinesOfLesson(body), 0, j)
  }

  predicate SomeHolds(blocks: seq<Block>, t: string) {
    exists e | 0 <= e < |blocks| :: Contains(blocks[e].raw, t)
  }

  /** The placeholder of block k went with the text of an exercise. */
  predicate BlockNested(body: string, k: nat) {
    SomeHolds(Exercises(body), Token(k))
  }

  // ---------------------------------------------------------------------------- Placeholders among lines

  function CountOf(parts: seq<string>, t: string): nat {
    if parts == [] then 0 else (if parts[0] == t then 1 else 0) + CountOf(parts[1..], t)
  }

  lemma {:induction false} CountOfTwo(parts: seq<string>, t: string, i: nat, j: nat)
    requires i < |parts| && parts[i] == t
    ensures CountOf(parts, t) > 0
    ensures i < j < |parts| && parts[j] == t ==> CountOf(parts, t) > 1
  {
    if i > 0 {
      CountOfTwo(parts[1..], t, i - 1, if j > 0 then j - 1 else 0);
    } else if j < |parts| && 0 < j && parts[j] == t {
      CountOfTwo(parts[1..], t, j - 1, 0);
    }
  }

  lemma {:induction false} CountOfFound(parts: seq<string>, t: string) returns (i: nat)
    requires CountOf(parts, t) > 0
    ensures i < |parts| && parts[i] == t
  {
    if parts[0] == t {
      i := 0;
    } else {
      i := CountOfFound(parts[1..], t);
      i := i + 1;
    }
  }

  lemma TokensDiffer(i: nat, j: nat)
    ensures Token(i) == Token(j) <==> i == j
  {
    if i != j {
      TokenApart(i, j);
      assert At(Token(j), 0, Token(j));
    }
  }

  /** Where the marked lines are the placeholders of these holes, a line holds placeholder k only by being it. */
  lemma {:induction false} TokensAmong(parts: seq<string>, holes: seq<nat>, k: nat)
    requires MarkedOf(parts) == Tokens(holes)
    ensures CountOf(parts, Token(k)) == Count(holes, k)
    ensures forall i | 0 <= i < |parts| && Contains(parts[i], Token(k)) :: parts[i] == Token(k)
  {
    hide Token, Marked, Contains;
    TokenMarked(k);
    if parts != [] {
      var rest := parts[1..];
      if Marked(parts[0]) {
        assert MarkedOf(parts)[0] == parts[0] && MarkedOf(parts)[1..] == MarkedOf(rest);
        assert Tokens(holes)[0] == Token(holes[0]) && Tokens(holes)[1..] == Tokens(holes[1..]);
        TokensAmong(rest, holes[1..], k);
        TokensDiffer(holes[0], k);
        if holes[0] != k {
          TokenApart(k, holes[0]);
        }
      } else {
        TokensAmong(rest, holes, k);
        UnmarkedLacks(parts[0], k);
      }
      forall i | 0 <= i < |parts| && Contains(parts[i], Token(k)) ensures parts[i] == Token(k) {
        if i > 0 {
          assert parts[i] == rest[i - 1];
        }
      }
    }
  }

  lemma {:induction false} SplitJoins(s: string)
    ensures Join(Split(s), "\n") == s
    decreases |s|
  {
    var n := NewlineIndex(s);
    if n == |s| {
      assert s[..n] == s;
      SplitOneLine(s);
    } else {
      var a, b := s[..n], s[n + 1..];
      assert s == a + "\n" + b;
      SplitAt(a, b);
      SplitOneLine(a);
      SplitJoins(b);
      assert ([a] + Split(b))[1..] == Split(b);
    }
  }

  /** Spelled with placeholders, text holds the placeholder of exactly the holes it has. */
  lemma SpellHolds(w: Weave<nat>, n: nat, k: nat)
    requires TextsUnmarked(w) && Below(w, n)
    ensures Contains(Spell(w, TokenLines(n)), Token(k)) <==> Count(Holes(w), k) > 0
  {
    var s := Spell(w, TokenLines(n));
    var lines := Split(s);
    hide Spell, Split, TokenLines, Token, Contains, Count, Below, TextsUnmarked;
    LinesOf(w, n);
    TokensAmong(lines, Holes(w), k);
    TokenPlain(k);
    SplitJoins(s);
    if Count(Holes(w), k) > 0 {
      var i := CountOfFound(lines, Token(k));
      PartOfJoin(lines, i, Token(k));
    } else {
      forall i | 0 <= i < |lines| ensures !Contains(lines[i], Token(k)) {
        if lines[i] == Token(k) {
          CountOfTwo(lines, Token(k), i, 0);
        }
      }
      JoinLacks(lines, Token(k));
    }
  }

  lemma PartOfJoin(parts: seq<string>, i: nat, t: string)
    requires i < |parts| && parts[i] == t
    ensures Contains(Join(parts, "\n"), t)
  {
    JoinAround(parts, i);
    var a, b := Before(parts, i), After(parts, i);
    hide Join, Before, After;
    assert Join(parts, "\n") == a + t + b;
    assert (a + t + b)[|a|..|a| + |t|] == t;
    assert At(a + t + b, |a|, t);
  }

  // ---------------------------------------------------------------------------- Nesting

  /** A placeholder went with an exercise exactly if that exercise's text holds it. */
  lemma {:induction false} InsideHolds(w: Weave<nat>, q: nat, cuts: Weave<Block>, k: nat)
    requires Cutting(w, q, cuts) && TextsUnmarked(w)
    ensures Count(Inside(w, TokenLines(q), cuts), k) > 0 <==> SomeHolds(Holes(cuts), Token(k))
    decreases cuts
  {
    match cuts
    case End(_) =>
    case More(t, b, rest) =>
      hide Spell, Cutting, TokenLines, Below, Around, Sandwich, Thirds, TextsUnmarked, Contains, Token, Count,
           SomeHolds;
      var (_, inside, c) := Thirds(w, TokenLines(q), |t|, |b.raw|);
      MergeStep(w, q, t, b, rest, 0);
      ThirdsTexts(w, TokenLines(q), |t|, |b.raw|);
      InsideHolds(c, q, rest, k);
      SpellHolds(inside, q, k);
      CountConcat(Holes(inside), Inside(c, TokenLines(q), rest), k);
      OneMoreHolds(b, Holes(rest), Token(k));
  }

  lemma OneMoreHolds(b: Block, later: seq<Block>, t: string)
    ensures SomeHolds([b] + later, t) <==> Contains(b.raw, t) || SomeHolds(later, t)
  {
    hide Contains;
    var all := [b] + later;
    if Contains(b.raw, t) {
      assert all[0] == b;
    }
    if e :| 0 <= e < |later| && Contains(later[e].raw, t) {
      assert all[e + 1] == later[e];
    }
  }

  lemma NestedMeans(body: string, k: nat)
    requires !Marked(body)
    ensures BlockNested(body, k) <==> Count(NestedIn(body), k) > 0
  {
    hide Spell, Cut, Marked, TokenLines, TextsUnmarked, Inside, Count, SomeHolds, Token, Cutting, Holes, Numbered;
    SecondPass(body);
    LayoutTexts(body);
    InsideHolds(Numbered(Cut(body, "quiz"), 0), |Quizzes(body)|, Cut(WithoutQuizzes(body), "exercise"), k);
  }

  // ---------------------------------------------------------------------------- What is lost

  lemma TokenCommentLike(k: nat)
    ensures CommentLike(Token(k))
  {
    TokenTagLike(k);
    TokenPlain(k);
    assert Token(k)[..|MARKER|][1] == '!';
    hide Token;
  }

  lemma LayoutBelow(body: string)
    ensures Below(LayoutOf(body), |BlockTexts(body)|)
  {
    hide LayoutOf, BlockTexts, NestedIn, Count, Spell, WithoutBlocks, Holes, TokenLines;
    LayoutMarks(body);
    forall i | 0 <= i < |Holes(LayoutOf(body))| ensures Holes(LayoutOf(body))[i] < |BlockTexts(body)| {
      CountThere(Holes(LayoutOf(body)), i);
    }
  }

  /** The lines of a lesson: its placeholders are those of the layout's holes. */
  lemma LessonLines(body: string, k: nat)
    requires !Marked(body)
    ensures PlainlyMarked(LinesOfLesson(body))
    ensures MarkedOf(LinesOfLesson(body)) == Tokens(Holes(LayoutOf(body)))
    ensures CountOf(LinesOfLesson(body), Token(k)) == Count(Holes(LayoutOf(body)), k)
    ensures forall i | 0 <= i < |LinesOfLesson(body)| && Contains(LinesOfLesson(body)[i], Token(k)) ::
              LinesOfLesson(body)[i] == Token(k)
  {
    hide LayoutOf, BlockTexts, NestedIn, Count, Spell, WithoutBlocks, Holes, TokenLines, TextsUnmarked, Marked, Below,
         Split, Token, Contains;
    LayoutMarks(body);
    LayoutTexts(body);
    LayoutBelow(body);
    LinesOf(LayoutOf(body), |BlockTexts(body)|);
    TokensAmong(LinesOfLesson(body), Holes(LayoutOf(body)), k);
  }

  predicate SomeChunkHolds(chunks: seq<string>, t: string) {
    exists i | 0 <= i < |chunks| :: Contains(chunks[i], t)
  }

  lemma ChunkOfPage(body: string, k: nat)
    ensures Contains(Rendered(WithoutBlocks(body)), Token(k))
            <==> SomeChunkHolds(Chunks(LinesOfLesson(body), 0), Token(k))
  {
    hide Chunks, Split, WithoutBlocks, Token, Contains, Join, SomeChunkHolds;
    TokenPlain(k);
    JoinHolds(Chunks(LinesOfLesson(body), 0), Token(k));
  }

  lemma JoinHolds(chunks: seq<string>, t: string)
    requires OneLine(t) && t != ""
    ensures Contains(Join(chunks, "\n"), t) <==> SomeChunkHolds(chunks, t)
  {
    hide Contains, Join;
    if i :| 0 <= i < |chunks| && Contains(chunks[i], t) {
      PartHolds(chunks, i, t);
    } else {
      JoinLacks(chunks, t);
    }
  }

  lemma PartHolds(parts: seq<string>, i: nat, t: string)
    requires i < |parts| && Contains(parts[i], t)
    ensures Contains(Join(parts, "\n"), t)
  {
    JoinAround(parts, i);
    if !Contains(Join(parts, "\n"), t) {
      PartLacks(Before(parts, i), parts[i], After(parts, i), t);
    }
  }

  /** A fenced or nested block's placeholder is in no chunk. */
  lemma LostChunks(body: string, k: nat)
    requires !Marked(body) && k < |BlockTexts(body)| && (BlockFenced(body, k) || BlockNested(body, k))
    ensures !SomeChunkHolds(Chunks(LinesOfLesson(body), 0), Token(k))
  {
    hide Chunks, Marked, Split, WithoutBlocks, Token, Contains, Fenced, BlockNested, BlockTexts, LayoutOf, NestedIn,
         Count, Holes, LinesOfLesson, CountOf, CommentLike, MarkedOf, PlainlyMarked, Tokens, Spell, TokenLines;
    var lines := LinesOfLesson(body);
    LayoutMarks(body);
    LessonLines(body, k);
    NestedMeans(body, k);
    TokenCommentLike(k);
    assert CountOf(lines, Token(k)) + Count(NestedIn(body), k) == 1;
    forall j | 0 <= j < |lines| && Contains(lines[j], Token(k)) ensures Fenced(lines, 0, j) {
      CountOfTwo(lines, Token(k), j, 0);
      var f :| 0 <= f < |lines| && lines[f] == Token(k) && Fenced(lines, 0, f);
      CountOfTwo(lines, Token(k), j, f);
      CountOfTwo(lines, Token(k), f, j);
    }
    ChunksLack(lines, 0, Token(k));
  }

  /** Any other is a chunk. */
  lemma KeptChunk(body: string, k: nat)
    requires !Marked(body) && k < |BlockTexts(body)| && !BlockFenced(body, k) && !BlockNested(body, k)
    ensures SomeChunkHolds(Chunks(LinesOfLesson(body), 0), Token(k))
  {
    hide Chunks, Marked, Split, WithoutBlocks, Token, Contains, Fenced, BlockNested, BlockTexts, LayoutOf, NestedIn,
         Count, Holes, LinesOfLesson, CountOf, MarkedOf, PlainlyMarked, Tokens, Spell, TokenLines;
    var lines := LinesOfLesson(body);
    LayoutMarks(body);
    LessonLines(body, k);
    NestedMeans(body, k);
    TokenMarked(k);
    var j := CountOfFound(lines, Token(k));
    LineComesOut(lines, 0, j);
    HoldsItself(Token(k));
  }

  /** Exactly which placeholders come out of the renderer: those neither fenced nor nested. */
  lemma ComesOutIff(body: string, k: nat)
    requires !Marked(body) && k < |BlockTexts(body)|
    ensures Contains(Rendered(WithoutBlocks(body)), Token(k)) <==> !BlockFenced(body, k) && !BlockNested(body, k)
  {
    hide *;
    ChunkOfPage(body, k);
    if BlockFenced(body, k) || BlockNested(body, k) {
      LostChunks(body, k);
    } else {
      KeptChunk(body, k);
    }
  }

  lemma HoldsItself(t: string)
    ensures Contains(t, t)
  {
    assert At(t, 0, t);
  }

  // ---------------------------------------------------------------------------- The converse

  /** If no block is nested and none fenced, that is what the two conditions on a lesson say. */
  lemma NoneLost(body: string)
    requires !Marked(body)
    ensures NoQuizInExercise(body) && NoBlockInFence(body) <==>
            forall k: nat | k < |BlockTexts(body)| :: !BlockFenced(body, k) && !BlockNested(body, k)
  {
    hide *;
    if !NoQuizInExercise(body) {
      SomeNested(body);
    } else if !NoBlockInFence(body) {
      SomeFenced(body);
    } else {
      forall k: nat | k < |BlockTexts(body)| ensures !BlockFenced(body, k) && !BlockNested(body, k) {
        NotLost(body, k);
      }
    }
  }

  lemma SomeNested(body: string)
    requires !Marked(body) && !NoQuizInExercise(body)
    ensures exists k: nat | k < |BlockTexts(body)| :: BlockNested(body, k)
  {
    hide Marked, NoQuizInExercise, NestedIn, Count, Holes, LayoutOf, BlockTexts, BlockNested, Spell, WithoutBlocks,
         TokenLines;
    NoneNestedIn(body);
    var k := NestedIn(body)[0];
    CountThere(NestedIn(body), 0);
    LayoutMarks(body);
    NestedMeans(body, k);
    assert k < |BlockTexts(body)| && BlockNested(body, k);
  }

  lemma SomeFenced(body: string)
    requires !Marked(body) && !NoBlockInFence(body)
    ensures exists k: nat | k < |BlockTexts(body)| :: BlockFenced(body, k)
  {
    hide Marked, Split, WithoutBlocks, Token, Fenced, FencesClear, LayoutOf, BlockTexts, Holes, MarkedOf, Tokens;
    var lines := LinesOfLesson(body);
    FencesClearMeans(lines, 0);
    var j :| 0 <= j < |lines| && Marked(lines[j]) && Fenced(lines, 0, j);
    LessonLines(body, 0);
    var h := MarkedIsToken(lines, Holes(LayoutOf(body)), j);
    LayoutBelow(body);
    assert BlockFenced(body, Holes(LayoutOf(body))[h]);
  }

  /** Each marked line is one of the placeholders. */
  lemma {:induction false} MarkedIsToken(parts: seq<string>, holes: seq<nat>, j: nat) returns (h: nat)
    requires j < |parts| && Marked(parts[j]) && MarkedOf(parts) == Tokens(holes)
    ensures h < |holes| && parts[j] == Token(holes[h])
  {
    hide Token, Marked;
    if Marked(parts[0]) {
      assert MarkedOf(parts)[0] == parts[0] && MarkedOf(parts)[1..] == MarkedOf(parts[1..]);
      assert Tokens(holes)[0] == Token(holes[0]) && Tokens(holes)[1..] == Tokens(holes[1..]);
      if j == 0 {
        h := 0;
      } else {
        h := MarkedIsToken(parts[1..], holes[1..], j - 1);
        h := h + 1;
      }
    } else {
      h := MarkedIsToken(parts[1..], holes, j - 1);
    }
  }

  lemma NotLost(body: string, k: nat)
    requires !Marked(body) && NoQuizInExercise(body) && NoBlockInFence(body)
    ensures !BlockFenced(body, k) && !BlockNested(body, k)
  {
    hide Marked, Split, WithoutBlocks, Token, Fenced, FencesClear, BlockNested, NestedIn, NoQuizInExercise;
    FencesClearMeans(LinesOfLesson(body), 0);
    TokenMarked(k);
    NoneNestedIn(body);
    NestedMeans(body, k);
    CountNone(k);
  }

  /** A page that shows every block once has lost none. */
  lemma ShownMeansKept(body: string, htmls: seq<string>, layout: Weave<nat>, page: seq<Chunk>)
    requires !Marked(body) && |htmls| == |BlockTexts(body)|
    requires SamePlaces(body, htmls, layout, page) && EachOnce(Slots(page), |htmls|)
    ensures NoQuizInExercise(body) && NoBlockInFence(body)
  {
    hide *;
    NoneLost(body);
    forall k: nat | k < |BlockTexts(body)| ensures !BlockFenced(body, k) && !BlockNested(body, k) {
      if BlockFenced(body, k) || BlockNested(body, k) {
        LostChunks(body, k);
        SlotIsChunk(body, htmls, layout, page, k);
      }
    }
  }

  lemma SlotIsChunk(body: string, htmls: seq<string>, layout: Weave<nat>, page: seq<Chunk>, k: nat)
    requires SamePlaces(body, htmls, layout, page) && EachOnce(Slots(page), |htmls|) && k < |htmls|
    ensures SomeChunkHolds(Chunks(LinesOfLesson(body), 0), Token(k))
  {
    hide Chunks, Split, WithoutBlocks, Token, Contains, Substituted, Rendered, Join, OthersUnmarked, Spell, Holes,
         BlockTexts;
    var p := SlotOf(page, k);
    HoldsItself(Token(k));
    assert Chunks(LinesOfLesson(body), 0)[p] == Texts(page, AllTokens(|htmls|))[p] == Token(k);
  }
}
