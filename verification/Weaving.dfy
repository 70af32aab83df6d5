/** Two passes over one text: quizzes are cut out first, then exercises out of what that left. Where every
    block ends up, in the order of the source: the holes of the second pass are set among those of the first,
    in one text that spells the source and the Markdown alike. */
module Weaving {
  import opened Concatenation
  import opened Decimal
  import opened Text
  import opened Markdown
  import opened Blocks

  // ---------------------------------------------------------------------------- Counting holes

  function Count(slots: seq<nat>, k: nat): nat {
    if slots == [] then 0 else (if slots[0] == k then 1 else 0) + Count(slots[1..], k)
  }

  /** Each of the first n numbers once, and no other. */
  ghost predicate EachOnce(slots: seq<nat>, n: nat) {
    forall k: nat :: Count(slots, k) == if k < n then 1 else 0
  }

  lemma {:induction false} CountConcat(a: seq<nat>, b: seq<nat>, k: nat)
    ensures Count(a + b, k) == Count(a, k) + Count(b, k)
  {
    if a == [] {
      assert a + b == b;
    } else {
      CountConcat(a[1..], b, k);
      assert (a + b)[1..] == a[1..] + b;
    }
  }

  lemma {:induction false} CountThere(slots: seq<nat>, p: nat)
    requires p < |slots|
    ensures Count(slots, slots[p]) > 0
  {
    if p > 0 {
      CountThere(slots[1..], p - 1);
    }
  }

  lemma {:induction false} CountNumbered<T>(w: Weave<T>, from: nat, k: nat)
    ensures Count(Holes(Numbered(w, from)), k) == if from <= k < from + |Holes(w)| then 1 else 0
    decreases w
  {
    if w.More? {
      CountNumbered(w.rest, from + 1, k);
    }
  }

  // ---------------------------------------------------------------------------- Placeholders

  lemma TokenPlain(k: nat)
    ensures Free(Token(k), '{') && Free(Token(k), '}') && OneLine(Token(k))
    ensures Marked(Token(k)) && Token(k)[0] == '<' && |MARKER| <= |Token(k)|
    ensures Token(k)[..|MARKER|] == MARKER
  {
    hide Digits;
    MarkerPlain();
    var d := Digits(k);
    hide Marked;
    assert At(MARKER + d + "-->", 0, MARKER);
    TokenMarked(k);
  }

  lemma TokenMarked(k: nat)
    ensures Marked(Token(k)) && Token(k)[..|MARKER|] == MARKER
  {
    hide Digits;
    var t := Token(k);
    assert t == MARKER + (Digits(k) + "-->");
    assert At(t, 0, MARKER);
  }

  lemma MarkerPlain()
    ensures Free(MARKER, '{') && Free(MARKER, '}') && OneLine(MARKER) && Free(MARKER, '>')
    ensures MARKER[0] == '<' && forall i | 1 <= i < |MARKER| :: MARKER[i] != '<'
  {
  }

  lemma TokenLinePlain(n: nat)
    ensures Braceless(TokenLines(n))
    ensures forall k: nat | k < n :: Contains(Fill(TokenLines(n), k), MARKER)
  {
    forall k: nat | k < n ensures Free(TokenLine(k), '{') && Free(TokenLine(k), '}') && Contains(TokenLine(k), MARKER) {
      TokenPlain(k);
      TokenLineMarked(k);
    }
  }

  lemma TokenLineMarked(k: nat)
    ensures Contains(TokenLine(k), MARKER)
  {
    TokenMarked(k);
    var t := Token(k);
    hide Token;
    assert ("\n" + t + "\n")[1..1 + |t|] == t;
    assert At("\n" + t + "\n", 1, MARKER) by {
      assert ("\n" + t + "\n")[1..1 + |MARKER|] == t[..|MARKER|];
    }
  }

  // ---------------------------------------------------------------------------- The second pass

  /** All holes of w are below q. */
  predicate Below(w: Weave<nat>, q: nat) {
    forall i | 0 <= i < |Holes(w)| :: Holes(w)[i] < q
  }

  lemma BelowRest(w: Weave<nat>, n: nat)
    requires w.More? && Below(w, n)
    ensures w.hole < n && Below(w.rest, n)
  {
    assert Holes(w)[0] == w.hole;
    forall i | 0 <= i < |Holes(w.rest)| ensures Holes(w.rest)[i] < n {
      assert Holes(w)[i + 1] == Holes(w.rest)[i];
    }
  }

  lemma {:induction false} SpellPrefix(w: Weave<nat>, fills: seq<string>, more: seq<string>)
    requires Below(w, |fills|) && fills <= more
    ensures Spell(w, more) == Spell(w, fills)
    decreases w
  {
    if w.More? {
      BelowRest(w, |fills|);
      SpellPrefix(w.rest, fills, more);
      assert more[w.hole] == fills[w.hole];
    }
  }

  /** The parts of w before n, from there for m, and after. */
  function Thirds(w: Weave<nat>, fills: seq<string>, n: nat, m: nat): (Weave<nat>, Weave<nat>, Weave<nat>) {
    var (before, later) := Divide(w, fills, n);
    var (inside, after) := Divide(later, fills, m);
    (before, inside, after)
  }

  /** The first pass's placeholders and the second pass's cuts, over one another: what lies inside a block of
      the second pass goes with it. */
  function Merge(w: Weave<nat>, fills: seq<string>, cuts: Weave<Block>, k: nat): Weave<nat>
    decreases cuts
  {
    match cuts
    case End(_) => w
    case More(t, b, rest) =>
      var (a, _, c) := Thirds(w, fills, |t|, |b.raw|);
      Around(a, k, Merge(c, fills, rest, k + 1))
  }

  /** The holes that go. */
  function Inside(w: Weave<nat>, fills: seq<string>, cuts: Weave<Block>): seq<nat>
    decreases cuts
  {
    match cuts
    case End(_) => []
    case More(t, b, rest) =>
      var (_, inside, c) := Thirds(w, fills, |t|, |b.raw|);
      Holes(inside) + Inside(c, fills, rest)
  }

  /** The text that was cut. */
  function Whole(cuts: Weave<Block>): string {
    match cuts
    case End(t) => t
    case More(t, b, rest) => t + b.raw + Whole(rest)
  }

  /** Blocks run from tag to tag. */
  predicate Tagged(cuts: Weave<Block>) {
    match cuts
    case End(_) => true
    case More(_, b, rest) => b.raw != "" && b.raw[0] == '{' && b.raw[|b.raw| - 1] == '}' && Tagged(rest)
  }

  lemma {:induction false} CutWhole(s: string, word: string)
    ensures Whole(Cut(s, word)) == s && Tagged(Cut(s, word))
    decreases |s|
  {
    hide FindBlock, TagEnd;
    if FindBlock(s, word).Some? {
      var Span(o, i, c, e) := FindBlock(s, word).value;
      CutWhole(s[e..], word);
      assert Cut(s, word) == More(s[..o], Block(s[o..e], s[i..c]), Cut(s[e..], word));
      assert s == s[..o] + s[o..e] + s[e..];
    }
  }

  /** No block of the second pass has a placeholder of the first inside it. */
  predicate NoneNested(cuts: Weave<Block>) {
    match cuts
    case End(_) => true
    case More(_, b, rest) => !Marked(b.raw) && NoneNested(rest)
  }

  /** Text that lacks the marker has no holes where fills have it. */
  lemma NoHoles(w: Weave<nat>, q: nat)
    requires Below(w, q) && !Marked(Spell(w, TokenLines(q)))
    ensures w.End?
  {
    if w.More? {
      assert Holes(w)[0] == w.hole < q;
      TokenLinePlain(q);
      var rest := Spell(w.rest, TokenLines(q));
      hide Spell, TokenLines;
      SpellMore(w.text, w.hole, w.rest, TokenLines(q));
      PartLacks(w.text, Fill(TokenLines(q), w.hole), rest, MARKER);
    }
  }

  lemma PartsBelow(w: Weave<nat>, a: Weave<nat>, b: Weave<nat>, q: nat)
    requires Below(w, q) && Parts(w, a, b)
    ensures Below(a, q) && Below(b, q)
  {
    var n := |Holes(a)|;
    forall i | 0 <= i < n ensures Holes(a)[i] < q {
      assert Holes(w)[i] == Holes(a)[i];
    }
    forall i | 0 <= i < |Holes(b)| ensures Holes(b)[i] < q {
      assert Holes(w)[n + i] == Holes(b)[i];
    }
  }

  /** However its holes are filled, w is a, the text, and c. */
  ghost predicate Sandwich(w: Weave<nat>, a: Weave<nat>, raw: string, c: Weave<nat>) {
    forall fills :: Spell(w, fills) == Spell(a, fills) + raw + Spell(c, fills)
  }

  lemma SandwichAt(w: Weave<nat>, a: Weave<nat>, raw: string, c: Weave<nat>, fills: seq<string>)
    ensures Sandwich(w, a, raw, c) ==> Spell(w, fills) == Spell(a, fills) + raw + Spell(c, fills)
  {
  }

  /** One block of the second pass: w falls into what is before it, what is inside it, and what is after. */
  lemma Divided(w: Weave<nat>, q: nat, t: string, raw: string, rest: string)
    requires Below(w, q) && Spell(w, TokenLines(q)) == t + raw + rest
    requires raw != "" && raw[0] == '{' && raw[|raw| - 1] == '}'
    ensures var (a, inside, c) := Thirds(w, TokenLines(q), |t|, |raw|);
            && Below(a, q) && Below(inside, q) && Below(c, q) && Holes(w) == Holes(a) + (Holes(inside) + Holes(c))
            && Spell(a, TokenLines(q)) == t && Spell(inside, TokenLines(q)) == raw && Spell(c, TokenLines(q)) == rest
            && (inside.End? ==> Sandwich(w, a, raw, c))
  {
    hide Divide, TokenLines, Spell, Holes, Sandwich;
    var fills := TokenLines(q);
    TokenLinePlain(q);
    hide Braceless;
    EdgeStart(t, raw, rest);
    DivideParts(w, fills, |t|);
    var (a, later) := Divide(w, fills, |t|);
    PartsBelow(w, a, later, q);
    assert Spell(later, fills) == raw + rest;
    EdgeEnd(raw, rest);
    DivideParts(later, fills, |raw|);
    var (inside, c) := Divide(later, fills, |raw|);
    PartsBelow(later, inside, c, q);
    assert Spell(inside, fills) == raw;
    PartsHoles(w, a, later);
    PartsHoles(later, inside, c);
    if inside.End? {
      AllSpell(w, a, later, inside, c, raw, fills);
    }
  }

  lemma EdgeStart(t: string, raw: string, rest: string)
    requires raw != "" && raw[0] == '{'
    ensures Edge(t + raw + rest, |t|) && (t + raw + rest)[..|t|] == t && (t + raw + rest)[|t|..] == raw + rest
  {
  }

  lemma EdgeEnd(raw: string, rest: string)
    ensures raw != "" && raw[|raw| - 1] == '}' ==>
              Edge(raw + rest, |raw|) && (raw + rest)[..|raw|] == raw && (raw + rest)[|raw|..] == rest
  {
  }

  lemma AllSpell(w: Weave<nat>, a: Weave<nat>, later: Weave<nat>, inside: Weave<nat>, c: Weave<nat>, raw: string,
                 fills: seq<string>)
    requires Parts(w, a, later) && Parts(later, inside, c) && inside.End? && Spell(inside, fills) == raw
    ensures Sandwich(w, a, raw, c)
  {
    hide Parts, Spell;
    forall f: seq<string> ensures Spell(w, f) == Spell(a, f) + raw + Spell(c, f) {
      OneSpells(w, a, later, inside, c, raw, fills, f);
    }
  }

  lemma OneSpells(w: Weave<nat>, a: Weave<nat>, later: Weave<nat>, inside: Weave<nat>, c: Weave<nat>, raw: string,
                  fills: seq<string>, f: seq<string>)
    requires Parts(w, a, later) && Parts(later, inside, c) && inside.End? && Spell(inside, fills) == raw
    ensures Spell(w, f) == Spell(a, f) + raw + Spell(c, f)
  {
    assert Spell(inside, f) == raw;
    assert Spell(a, f) + Spell(later, f) == Spell(w, f) && Spell(inside, f) + Spell(c, f) == Spell(later, f);
    hide Spell, Parts;
    Associate(Spell(a, f), raw, Spell(c, f));
  }

  lemma PartsHoles(w: Weave<nat>, a: Weave<nat>, b: Weave<nat>)
    ensures Parts(w, a, b) ==> Holes(w) == Holes(a) + Holes(b)
  {
  }

  /** What the second pass works on: text with the first pass's placeholders, cut into blocks. */
  predicate Cutting(w: Weave<nat>, q: nat, cuts: Weave<Block>) {
    Below(w, q) && Spell(w, TokenLines(q)) == Whole(cuts) && Tagged(cuts)
  }

  /** One block of the merge. */
  lemma MergeStep(w: Weave<nat>, q: nat, t: string, b: Block, rest: Weave<Block>, k: nat)
    requires Cutting(w, q, More(t, b, rest))
    ensures var (a, inside, c) := Thirds(w, TokenLines(q), |t|, |b.raw|);
            && Below(a, q) && Below(inside, q) && Cutting(c, q, rest)
            && Holes(w) == Holes(a) + (Holes(inside) + Holes(c))
            && Spell(a, TokenLines(q)) == t && Spell(inside, TokenLines(q)) == b.raw
            && (inside.End? ==> Sandwich(w, a, b.raw, c))
            && Merge(w, TokenLines(q), More(t, b, rest), k) == Around(a, k, Merge(c, TokenLines(q), rest, k + 1))
  {
    hide Spell, Thirds, TokenLines, Below, Holes, Sandwich;
    Divided(w, q, t, b.raw, Whole(rest));
  }

  /** From k on, the blocks' texts are among the fills. */
  predicate Holding(raws: seq<string>, k: nat, blocks: seq<Block>) {
    forall j | 0 <= j < |blocks| :: Fill(raws, k + j) == blocks[j].raw
  }

  lemma HoldingTail(raws: seq<string>, k: nat, b: Block, later: seq<Block>)
    requires Holding(raws, k, [b] + later)
    ensures Fill(raws, k) == b.raw && Holding(raws, k + 1, later)
  {
    var blocks := [b] + later;
    assert Fill(raws, k + 0) == blocks[0].raw;
    forall j | 0 <= j < |later| ensures Fill(raws, k + 1 + j) == later[j].raw {
      assert blocks[1 + j] == later[j] && Fill(raws, k + (1 + j)) == blocks[1 + j].raw;
    }
  }

  lemma {:induction false} MergeSource(w: Weave<nat>, q: nat, cuts: Weave<Block>, k: nat, raws: seq<string>)
    requires Cutting(w, q, cuts) && NoneNested(cuts) && Holding(raws, k, Holes(cuts))
    ensures Spell(Merge(w, TokenLines(q), cuts, k), raws) == Spell(w, raws)
    decreases cuts
  {
    hide Spell, Cutting, TokenLines, Below, Holding, Around, Sandwich, Thirds, Fill, Marked;
    match cuts
    case End(_) =>
    case More(t, b, rest) =>
      var (a, inside, c) := Thirds(w, TokenLines(q), |t|, |b.raw|);
      MergeStep(w, q, t, b, rest, k);
      NoHoles(inside, q);
      SandwichAt(w, a, b.raw, c, raws);
      HoldingTail(raws, k, b, Holes(rest));
      MergeSource(c, q, rest, k + 1, raws);
      AroundSpells(a, k, Merge(c, TokenLines(q), rest, k + 1), raws);
  }

  lemma {:induction false} MergeTokens(w: Weave<nat>, q: nat, cuts: Weave<Block>, k: nat, lines: seq<string>)
    requires Cutting(w, q, cuts) && TokenLines(q) <= lines
    ensures Spell(Merge(w, TokenLines(q), cuts, k), lines) == Spell(Numbered(cuts, k), lines)
    decreases cuts
  {
    assert |TokenLines(q)| == q;
    match cuts
    case End(_) =>
      SpellPrefix(w, TokenLines(q), lines);
    case More(t, b, rest) =>
      hide Spell, Cutting, TokenLines, Below, Around, Sandwich, Thirds, Fill;
      var (a, _, c) := Thirds(w, TokenLines(q), |t|, |b.raw|);
      MergeStep(w, q, t, b, rest, k);
      MergeTokens(c, q, rest, k + 1, lines);
      AroundSpells(a, k, Merge(c, TokenLines(q), rest, k + 1), lines);
      SpellPrefix(a, TokenLines(q), lines);
      SpellMore(t, k, Numbered(rest, k + 1), lines);
  }

  lemma CountAround(a: Weave<nat>, k: nat, v: Weave<nat>, i: nat)
    ensures Count(Holes(Around(a, k, v)), i) == Count(Holes(a), i) + (if k == i then 1 else 0) + Count(Holes(v), i)
  {
    assert Count([k], i) == (if k == i then 1 else 0) + Count([k][1..], i) && [k][1..] == [];
    hide Count, Holes, Around;
    AroundSpells(a, k, v, []);
    CountConcat(Holes(a) + [k], Holes(v), i);
    CountConcat(Holes(a), [k], i);
  }

  /** Every block of both passes has one hole, but for those of the first that lie inside one of the second. */
  lemma {:induction false} MergeCounts(w: Weave<nat>, q: nat, cuts: Weave<Block>, k: nat, i: nat)
    requires Cutting(w, q, cuts)
    ensures Count(Holes(Merge(w, TokenLines(q), cuts, k)), i) + Count(Inside(w, TokenLines(q), cuts), i)
         == Count(Holes(w), i) + if k <= i < k + |Holes(cuts)| then 1 else 0
    decreases cuts
  {
    hide Spell, Cutting, TokenLines, Below, Around, Sandwich, Thirds, Count;
    match cuts
    case End(_) =>
      CountNone(i);
    case More(t, b, rest) =>
      var (a, inside, c) := Thirds(w, TokenLines(q), |t|, |b.raw|);
      MergeStep(w, q, t, b, rest, k);
      var v := Merge(c, TokenLines(q), rest, k + 1);
      MergeCounts(c, q, rest, k + 1, i);
      CountConcat(Holes(inside), Holes(c), i);
      CountConcat(Holes(a), Holes(inside) + Holes(c), i);
      CountConcat(Holes(inside), Inside(c, TokenLines(q), rest), i);
      CountAround(a, k, v, i);
      assert |Holes(cuts)| == 1 + |Holes(rest)|;
  }

  lemma CountNone(i: nat)
    ensures Count([], i) == 0
  {
  }

  // ---------------------------------------------------------------------------- Text around the holes

  predicate TextsUnmarked(w: Weave<nat>) {
    match w
    case End(t) => !Marked(t)
    case More(t, _, rest) => !Marked(t) && TextsUnmarked(rest)
  }

  lemma {:induction false} TextsOfUnmarked(w: Weave<nat>, fills: seq<string>)
    requires !Marked(Spell(w, fills))
    ensures TextsUnmarked(w)
    decreases w
  {
    if w.More? {
      var fill, rest := Fill(fills, w.hole), Spell(w.rest, fills);
      assert "" + w.text + (fill + rest) == w.text + fill + rest;
      PartLacks("", w.text, fill + rest, MARKER);
      assert w.text + fill + rest + "" == w.text + fill + rest;
      PartLacks(w.text + fill, rest, "", MARKER);
      TextsOfUnmarked(w.rest, fills);
    }
  }

  lemma {:induction false} DivideTexts(w: Weave<nat>, fills: seq<string>, n: nat)
    requires TextsUnmarked(w)
    ensures TextsUnmarked(Divide(w, fills, n).0) && TextsUnmarked(Divide(w, fills, n).1)
    decreases w
  {
    hide Marked;
    UnmarkedSlices(w.text, n);
    if w.More? && n > |w.text| {
      var skip := |w.text| + |Fill(fills, w.hole)|;
      if n >= skip {
        DivideTexts(w.rest, fills, n - skip);
      }
    }
  }

  lemma UnmarkedSlices(s: string, n: nat)
    requires !Marked(s)
    ensures !Marked("") && (n <= |s| ==> !Marked(s[..n]) && !Marked(s[n..]))
  {
    if n <= |s| {
      SliceLacks(s, 0, n, MARKER);
      SliceLacks(s, n, |s|, MARKER);
      assert s[0..n] == s[..n] && s[n..|s|] == s[n..];
    }
  }

  lemma {:induction false} AroundTexts(a: Weave<nat>, k: nat, b: Weave<nat>)
    requires TextsUnmarked(a) && TextsUnmarked(b)
    ensures TextsUnmarked(Around(a, k, b))
    decreases a
  {
    hide Marked;
    if a.More? {
      AroundTexts(a.rest, k, b);
    }
  }

  lemma ThirdsTexts(w: Weave<nat>, fills: seq<string>, n: nat, m: nat)
    requires TextsUnmarked(w)
    ensures var (a, inside, c) := Thirds(w, fills, n, m); TextsUnmarked(a) && TextsUnmarked(inside) && TextsUnmarked(c)
  {
    hide TextsUnmarked, Divide;
    DivideTexts(w, fills, n);
    DivideTexts(Divide(w, fills, n).1, fills, m);
  }

  lemma {:induction false} MergeTexts(w: Weave<nat>, fills: seq<string>, cuts: Weave<Block>, k: nat)
    requires TextsUnmarked(w)
    ensures TextsUnmarked(Merge(w, fills, cuts, k))
    decreases cuts
  {
    hide TextsUnmarked, Thirds, Around;
    match cuts
    case End(_) =>
    case More(t, b, rest) =>
      var (a, _, c) := Thirds(w, fills, |t|, |b.raw|);
      ThirdsTexts(w, fills, |t|, |b.raw|);
      MergeTexts(c, fills, rest, k + 1);
      AroundTexts(a, k, Merge(c, fills, rest, k + 1));
  }

  /** No hole goes if no block of the second pass is marked, and otherwise some do. */
  lemma {:induction false} InsideNone(w: Weave<nat>, q: nat, cuts: Weave<Block>)
    requires Cutting(w, q, cuts)
    ensures NoneNested(cuts) ==> Inside(w, TokenLines(q), cuts) == []
    ensures !NoneNested(cuts) && TextsUnmarked(w) ==> Inside(w, TokenLines(q), cuts) != []
    decreases cuts
  {
    hide Spell, Cutting, TokenLines, Below, Around, Sandwich, Thirds, TextsUnmarked, Marked;
    match cuts
    case End(_) =>
    case More(t, b, rest) =>
      var (_, inside, c) := Thirds(w, TokenLines(q), |t|, |b.raw|);
      MergeStep(w, q, t, b, rest, 0);
      if TextsUnmarked(w) {
        ThirdsTexts(w, TokenLines(q), |t|, |b.raw|);
      }
      InsideNone(c, q, rest);
      if !Marked(b.raw) {
        NoHoles(inside, q);
      } else if TextsUnmarked(w) {
        HasHoles(inside, q);
      }
  }

  lemma HasHoles(w: Weave<nat>, q: nat)
    requires TextsUnmarked(w) && Marked(Spell(w, TokenLines(q)))
    ensures Holes(w) != []
  {
    hide Marked, TokenLines;
  }

  // ---------------------------------------------------------------------------- The layout of a lesson

  function Quizzes(body: string): seq<Block> {
    Holes(Cut(body, "quiz"))
  }

  /** The lesson with its quizzes replaced by placeholders. */
  function WithoutQuizzes(body: string): string {
    Spell(Numbered(Cut(body, "quiz"), 0), TokenLines(|Quizzes(body)|))
  }

  function Exercises(body: string): seq<Block> {
    Holes(Cut(WithoutQuizzes(body), "exercise"))
  }

  /** The lesson with every block replaced by its placeholder. */
  function WithoutBlocks(body: string): string {
    var q, e := |Quizzes(body)|, |Exercises(body)|;
    Spell(Numbered(Cut(WithoutQuizzes(body), "exercise"), q), TokenLines(q + e))
  }

  /** The source text of every block, in the order the blocks are registered. */
  function BlockTexts(body: string): seq<string> {
    Raws(Quizzes(body)) + Raws(Exercises(body))
  }

  /** No exercise has a quiz inside it. */
  predicate NoQuizInExercise(body: string) {
    NoneNested(Cut(WithoutQuizzes(body), "exercise"))
  }

  /** The lesson as text with a numbered hole where each block was. */
  function LayoutOf(body: string): Weave<nat> {
    var q := |Quizzes(body)|;
    Merge(Numbered(Cut(body, "quiz"), 0), TokenLines(q), Cut(WithoutQuizzes(body), "exercise"), q)
  }

  lemma {:induction false} NumberedBelow<T>(w: Weave<T>, k: nat)
    ensures Below(Numbered(w, k), k + |Holes(w)|)
    decreases w
  {
    if w.More? {
      NumberedBelow(w.rest, k + 1);
      assert Holes(Numbered(w, k)) == [k] + Holes(Numbered(w.rest, k + 1));
      assert Holes(w) == [w.hole] + Holes(w.rest);
    }
  }

  /** The quizzes that lie inside an exercise. */
  function NestedIn(body: string): seq<nat> {
    Inside(Numbered(Cut(body, "quiz"), 0), TokenLines(|Quizzes(body)|), Cut(WithoutQuizzes(body), "exercise"))
  }

  /** With placeholders in its holes the layout is the Markdown that gets rendered, whatever nests; each block
      has one hole there, or lies inside an exercise. */
  lemma LayoutMarks(body: string)
    ensures Spell(LayoutOf(body), TokenLines(|BlockTexts(body)|)) == WithoutBlocks(body)
    ensures forall k: nat ::
              Count(Holes(LayoutOf(body)), k) + Count(NestedIn(body), k) == if k < |BlockTexts(body)| then 1 else 0
  {
    hide Spell, Cut, NoneNested, Merge, Below, Holes, Fill, Count, Cutting, Inside;
    var w, q, e := Numbered(Cut(body, "quiz"), 0), |Quizzes(body)|, |Exercises(body)|;
    var cuts := Cut(WithoutQuizzes(body), "exercise");
    SecondPass(body);
    assert TokenLines(q) <= TokenLines(q + e);
    hide TokenLines;
    MergeTokens(w, q, cuts, q, TokenLines(q + e));
    forall k: nat ensures Count(Holes(LayoutOf(body)), k) + Count(NestedIn(body), k) == if k < q + e then 1 else 0 {
      MergeCounts(w, q, cuts, q, k);
      CountNumbered(Cut(body, "quiz"), 0, k);
    }
  }

  /** The text of a lesson that has no placeholder of its own has none between its holes. */
  lemma LayoutTexts(body: string)
    requires !Marked(body)
    ensures TextsUnmarked(LayoutOf(body))
    ensures TextsUnmarked(Numbered(Cut(body, "quiz"), 0))
  {
    hide Spell, Cut, NoneNested, Merge, Below, Holes, Fill, Cutting, Inside, Marked, TokenLines, TextsUnmarked;
    var w := Numbered(Cut(body, "quiz"), 0);
    CutSpells(body, "quiz", []);
    TextsOfUnmarked(w, [] + Raws(Holes(Cut(body, "quiz"))));
    MergeTexts(w, TokenLines(|Quizzes(body)|), Cut(WithoutQuizzes(body), "exercise"), |Quizzes(body)|);
  }

  lemma NoneNestedIn(body: string)
    ensures NoQuizInExercise(body) ==> NestedIn(body) == []
    ensures !NoQuizInExercise(body) && !Marked(body) ==> NestedIn(body) != []
  {
    hide Spell, Cut, NoneNested, Merge, Below, Holes, Fill, Cutting, Inside, Marked, TokenLines, TextsUnmarked;
    SecondPass(body);
    if !Marked(body) {
      LayoutTexts(body);
    }
    InsideNone(Numbered(Cut(body, "quiz"), 0), |Quizzes(body)|, Cut(WithoutQuizzes(body), "exercise"));
  }

  /** One layout serves both, where no quiz lies inside an exercise: with the blocks in its holes it is the
      source, with the placeholders it is the Markdown; and each block has exactly one hole. */
  lemma LayoutSpells(body: string)
    requires NoQuizInExercise(body)
    ensures Spell(LayoutOf(body), BlockTexts(body)) == body
    ensures Spell(LayoutOf(body), TokenLines(|BlockTexts(body)|)) == WithoutBlocks(body)
    ensures EachOnce(Holes(LayoutOf(body)), |BlockTexts(body)|)
  {
    hide Spell, LayoutOf, BlockTexts, WithoutBlocks, NestedIn, NoQuizInExercise, Holes;
    LayoutMarks(body);
    NoneNestedIn(body);
    LayoutSource(body);
    forall k: nat ensures Count(NestedIn(body), k) == 0 {
      CountNone(k);
    }
    hide Count;
  }

  lemma SecondPass(body: string)
    ensures Cutting(Numbered(Cut(body, "quiz"), 0), |Quizzes(body)|, Cut(WithoutQuizzes(body), "exercise"))
  {
    hide Spell, Cut, NoneNested, Holes, TokenLines, Below, Whole, Tagged;
    NumberedBelow(Cut(body, "quiz"), 0);
    CutWhole(WithoutQuizzes(body), "exercise");
  }

  lemma LayoutSource(body: string)
    requires NoQuizInExercise(body)
    ensures Spell(LayoutOf(body), BlockTexts(body)) == body
  {
    hide Spell, Cut, NoneNested, Merge, Below, Holes, TokenLines, Cutting;
    var w, q := Numbered(Cut(body, "quiz"), 0), |Quizzes(body)|;
    var raws, more := Raws(Quizzes(body)), Raws(Exercises(body));
    CutSpells(body, "quiz", []);
    assert [] + raws == raws;
    NumberedBelow(Cut(body, "quiz"), 0);
    SpellPrefix(w, raws, raws + more);
    assert Holding(raws + more, q, Exercises(body)) by {
      forall j | 0 <= j < |more| ensures Fill(raws + more, q + j) == Exercises(body)[j].raw {
        assert (raws + more)[q + j] == more[j];
      }
    }
    hide Numbered, Fill;
    SecondPass(body);
    MergeSource(w, q, Cut(WithoutQuizzes(body), "exercise"), q, raws + more);
  }
}
