/** Lesson text as it is cut into blocks: the tag expressions, and text with numbered holes. A hole's number
    says which fill goes there, so that one text can be spelled with the blocks' own source, with their
    placeholders, or with their HTML; and a text may be divided at any place that is not inside a fill. */
module Blocks {
  import opened Concatenation
  import opened Decimal
  import opened Options
  import opened Text
  import opened Markdown

  /** Text with holes between its stretches. */
  datatype Weave<T> = End(text: string) | More(text: string, hole: T, rest: Weave<T>)

  datatype Block = Block(raw: string, inner: string)

  // ---------------------------------------------------------------------------- Tags

  /** The end of the tag `{% word %}` that starts at i, if one does. */
  function TagEnd(s: string, i: nat, word: string): (e: Option<nat>)
    requires i <= |s|
    ensures e.Some? ==> i + |word| + 4 <= e.value <= |s| && s[i] == '{' && s[e.value - 1] == '}'
  {
    if !At(s, i, "{%") then None
    else
      var p := i + 2 + Blanks(s[i + 2..]);
      if !At(s, p, word) then None
      else
        var q := p + |word| + Blanks(s[p + |word|..]);
        LetterOf(s, i, "{%");
        LetterOf(s, q, "%}");
        if At(s, q, "%}") then Some(q + 2) else None
  }

  lemma LetterOf(s: string, i: nat, t: string)
    ensures At(s, i, t) && |t| == 2 ==> s[i] == t[0] && s[i + 1] == t[1]
  {
    if At(s, i, t) && |t| == 2 {
      LetterAt(s, i, t, 0);
      LetterAt(s, i, t, 1);
    }
  }

  /** The first tag from i on; |s| + 1 if there is none. */
  function FindTag(s: string, i: nat, word: string): (p: nat)
    requires i <= |s|
    ensures i <= p && (p <= |s| ==> TagEnd(s, p, word).Some?)
    ensures forall k: nat | i <= k < p && k <= |s| :: TagEnd(s, k, word).None?
    decreases |s| - i
  {
    if TagEnd(s, i, word).Some? then i
    else if i == |s| then |s| + 1
    else FindTag(s, i + 1, word)
  }

  /** A block from its opening tag to the nearest closing one. */
  datatype Span = Span(open: nat, inner: nat, close: nat, end: nat)

  function FindBlock(s: string, word: string): (found: Option<Span>)
    ensures found.Some? ==>
              && var Span(o, i, c, e) := found.value;
              && o < i <= c < e <= |s| && s[o] == '{' && s[e - 1] == '}'
  {
    var o := FindTag(s, 0, word);
    if o > |s| then None
    else
      var i := TagEnd(s, o, word).value;
      var c := FindTag(s, i, "end" + word);
      if c > |s| then None else Some(Span(o, i, c, TagEnd(s, c, "end" + word).value))
  }

  function Cut(s: string, word: string): Weave<Block>
    decreases |s|
  {
    match FindBlock(s, word)
    case None => End(s)
    case Some(Span(o, i, c, e)) => More(s[..o], Block(s[o..e], s[i..c]), Cut(s[e..], word))
  }

  // ---------------------------------------------------------------------------- Holes

  function Holes<T>(w: Weave<T>): seq<T> {
    match w
    case End(_) => []
    case More(_, h, rest) => [h] + Holes(rest)
  }

  function Numbered<T>(w: Weave<T>, k: nat): Weave<nat> {
    match w
    case End(t) => End(t)
    case More(t, _, rest) => More(t, k, Numbered(rest, k + 1))
  }

  function Fill(fills: seq<string>, k: nat): string {
    if k < |fills| then fills[k] else ""
  }

  /** The text with its holes filled. */
  function Spell(w: Weave<nat>, fills: seq<string>): string {
    match w
    case End(t) => t
    case More(t, k, rest) => t + Fill(fills, k) + Spell(rest, fills)
  }

  function Raws(blocks: seq<Block>): seq<string> {
    seq(|blocks|, k requires 0 <= k < |blocks| => blocks[k].raw)
  }

  /** Cutting loses nothing: with each block back in its hole the text is the same. */
  lemma {:induction false} CutSpells(s: string, word: string, before: seq<string>)
    ensures Spell(Numbered(Cut(s, word), |before|), before + Raws(Holes(Cut(s, word)))) == s
    decreases |s|
  {
    hide Spell, FindBlock, TagEnd, Numbered, Holes, Raws;
    if FindBlock(s, word).Some? {
      var Span(o, i, c, e) := FindBlock(s, word).value;
      var rest := Cut(s[e..], word);
      var b := Block(s[o..e], s[i..c]);
      assert Cut(s, word) == More(s[..o], b, rest);
      CutSpells(s[e..], word, before + [b.raw]);
      hide Cut;
      SpellCut(s[..o], b, rest, before);
      assert s == s[..o] + s[o..e] + s[e..];
    } else {
      SpellEnd(s, before);
    }
  }

  lemma SpellEnd(s: string, before: seq<string>)
    ensures var w: Weave<Block> := End(s); Spell(Numbered(w, |before|), before + Raws(Holes(w))) == s
  {
  }

  lemma SpellCut(t: string, b: Block, rest: Weave<Block>, before: seq<string>)
    ensures var w := More(t, b, rest);
            Spell(Numbered(w, |before|), before + Raws(Holes(w)))
            == t + b.raw + Spell(Numbered(rest, |before| + 1), before + [b.raw] + Raws(Holes(rest)))
  {
    var w := More(t, b, rest);
    var later := Raws(Holes(rest));
    RawsMore(t, b, rest);
    var fills := before + [b.raw] + later;
    assert before + ([b.raw] + later) == fills && fills[|before|] == b.raw;
    assert Numbered(w, |before|) == More(t, |before|, Numbered(rest, |before| + 1));
    hide Raws, Holes, Numbered;
    SpellMore(t, |before|, Numbered(rest, |before| + 1), fills);
    hide Spell;
  }

  lemma RawsMore(t: string, b: Block, rest: Weave<Block>)
    ensures Raws(Holes(More(t, b, rest))) == [b.raw] + Raws(Holes(rest))
  {
  }

  /** A placeholder is a comment with the block's number. */
  function Token(k: nat): string {
    MARKER + Digits(k) + "-->"
  }

  function TokenLine(k: nat): string {
    "\n" + Token(k) + "\n"
  }

  function TokenLines(n: nat): seq<string> {
    seq(n, k requires 0 <= k < n => TokenLine(k))
  }

  function Tokens(slots: seq<nat>): seq<string> {
    seq(|slots|, k requires 0 <= k < |slots| => Token(slots[k]))
  }

  // ---------------------------------------------------------------------------- Splitting and joining

  /** a, a hole, and b. */
  function Around(a: Weave<nat>, k: nat, b: Weave<nat>): Weave<nat> {
    match a
    case End(t) => More(t, k, b)
    case More(t, h, rest) => More(t, h, Around(rest, k, b))
  }

  /** What becomes of w when the text of its placeholders is divided at n. */
  function Divide(w: Weave<nat>, fills: seq<string>, n: nat): (Weave<nat>, Weave<nat>) {
    match w
    case End(t) => if n <= |t| then (End(t[..n]), End(t[n..])) else (w, End(""))
    case More(t, k, rest) =>
      if n <= |t| then (End(t[..n]), More(t[n..], k, rest))
      else
        var skip := |t| + |Fill(fills, k)|;
        if n < skip then (w, End(""))
        else
          var (a, b) := Divide(rest, fills, n - skip);
          (More(t, k, a), b)
  }

  /** n is at an end of s, or next to a brace. */
  predicate Edge(s: string, n: nat) {
    n <= |s| && (n < |s| ==> s[n] == '{' || (n > 0 && s[n - 1] == '}'))
  }

  predicate Braceless(fills: seq<string>) {
    forall k | 0 <= k < |fills| :: Free(fills[k], '{') && Free(fills[k], '}')
  }

  /** a and b are two parts of w: together they spell what w does, whatever fills the holes. */
  ghost predicate Parts(w: Weave<nat>, a: Weave<nat>, b: Weave<nat>) {
    && (forall fills :: Spell(a, fills) + Spell(b, fills) == Spell(w, fills))
    && Holes(w) == Holes(a) + Holes(b)
  }

  lemma {:induction false} DivideParts(w: Weave<nat>, fills: seq<string>, n: nat)
    requires Braceless(fills) && Edge(Spell(w, fills), n)
    ensures var (a, b) := Divide(w, fills, n);
            && Parts(w, a, b)
            && Spell(a, fills) == Spell(w, fills)[..n] && Spell(b, fills) == Spell(w, fills)[n..]
    decreases w
  {
    match w
    case End(t) =>
    case More(t, k, rest) =>
      var fill, r := Fill(fills, k), Spell(rest, fills);
      if n <= |t| {
        DivideText(t, k, rest, fills, n);
      } else {
        if n < |t| + |fill| {
          NotInside(t, fill, r, n);
        }
        var m := n - |t| - |fill|;
        EdgeAfter(t + fill, r, m);
        DivideParts(rest, fills, m);
        DivideLater(t, k, rest, fills, n);
      }
  }

  /** An edge never falls inside a placeholder. */
  lemma NotInside(t: string, fill: string, r: string, n: nat)
    requires Free(fill, '{') && Free(fill, '}') && |t| < n < |t| + |fill|
    ensures !Edge(t + fill + r, n)
  {
    Middle(t, fill, r, n - 1);
    Middle(t, fill, r, n);
  }

  lemma EdgeAfter(head: string, r: string, m: nat)
    ensures Edge(head + r, |head| + m) ==> (Edge(r, m) || (m == 0 && r != ""))
  {
  }

  lemma Middle(t: string, fill: string, r: string, n: nat)
    ensures |t| <= n < |t| + |fill| ==> (t + fill + r)[n] == fill[n - |t|]
  {
  }

  lemma Regroup(t: string, n: nat, x: string, y: string)
    ensures n <= |t| ==>
              && t[..n] + (t[n..] + x + y) == t + x + y
              && (t + x + y)[..n] == t[..n] && (t + x + y)[n..] == t[n..] + x + y
  {
  }

  lemma DivideText(t: string, k: nat, rest: Weave<nat>, fills: seq<string>, n: nat)
    requires n <= |t|
    ensures var w := More(t, k, rest); var (a, b) := Divide(w, fills, n);
            && Parts(w, a, b)
            && Spell(a, fills) == Spell(w, fills)[..n] && Spell(b, fills) == Spell(w, fills)[n..]
  {
    hide Fill;
    Regroup(t, n, Fill(fills, k), Spell(rest, fills));
    forall f: seq<string> ensures t[..n] + Spell(More(t[n..], k, rest), f) == Spell(More(t, k, rest), f) {
      Regroup(t, n, Fill(f, k), Spell(rest, f));
    }
  }

  lemma DivideLater(t: string, k: nat, rest: Weave<nat>, fills: seq<string>, n: nat)
    requires n > |t| && n >= |t| + |Fill(fills, k)|
    requires var m := n - |t| - |Fill(fills, k)|; var (a, b) := Divide(rest, fills, m);
             && m <= |Spell(rest, fills)|
             && Parts(rest, a, b)
             && Spell(a, fills) == Spell(rest, fills)[..m] && Spell(b, fills) == Spell(rest, fills)[m..]
    ensures var w := More(t, k, rest); var (a, b) := Divide(w, fills, n);
            && Parts(w, a, b)
            && Spell(a, fills) == Spell(w, fills)[..n] && Spell(b, fills) == Spell(w, fills)[n..]
  {
    var m := n - |t| - |Fill(fills, k)|;
    var (a, b) := Divide(rest, fills, m);
    assert Divide(More(t, k, rest), fills, n) == (More(t, k, a), b);
    hide Fill, Divide, Spell, Holes, Parts;
    PartsLater(t, k, rest, a, b);
    SpellMore(t, k, rest, fills);
    SpellMore(t, k, a, fills);
    SplitAfter(t + Fill(fills, k), Spell(rest, fills), m);
  }

  lemma PartsLater(t: string, k: nat, rest: Weave<nat>, a: Weave<nat>, b: Weave<nat>)
    requires Parts(rest, a, b)
    ensures Parts(More(t, k, rest), More(t, k, a), b)
  {
    assert [k] + (Holes(a) + Holes(b)) == [k] + Holes(a) + Holes(b);
    hide Fill, Holes;
    forall f: seq<string> ensures Spell(More(t, k, a), f) + Spell(b, f) == Spell(More(t, k, rest), f) {
      assert Spell(a, f) + Spell(b, f) == Spell(rest, f);
      Associate(t + Fill(f, k), Spell(a, f), Spell(b, f));
    }
  }

  lemma SpellMore(t: string, k: nat, w: Weave<nat>, fills: seq<string>)
    ensures Spell(More(t, k, w), fills) == t + Fill(fills, k) + Spell(w, fills)
  {
  }

  lemma SplitAfter(head: string, r: string, m: nat)
    ensures m <= |r| ==> (head + r)[..|head| + m] == head + r[..m] && (head + r)[|head| + m..] == r[m..]
  {
  }

  lemma {:induction false} AroundSpells(a: Weave<nat>, k: nat, b: Weave<nat>, fills: seq<string>)
    ensures Spell(Around(a, k, b), fills) == Spell(a, fills) + Fill(fills, k) + Spell(b, fills)
    ensures Holes(Around(a, k, b)) == Holes(a) + [k] + Holes(b)
  {
    if a.More? {
      AroundSpells(a.rest, k, b, fills);
      hide Fill;
      var h, r := a.text + Fill(fills, a.hole), Spell(a.rest, fills);
      assert h + (r + Fill(fills, k) + Spell(b, fills)) == h + r + Fill(fills, k) + Spell(b, fills);
    }
  }
}
