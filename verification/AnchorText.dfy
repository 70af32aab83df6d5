/** Which parts of a page are anchor tags, and which attributes they can have. */
module AnchorText {
  import opened Concatenation
  import opened Options
  import opened Search
  import opened Text
  import opened Html
  import opened DemoLinks

  /** What follows the name of an anchor, up to the bracket that closes it: the name ends there. */
  predicate Goes(body: string) {
    && Free(body, '>')
    && (body != "" ==> !('a' <= body[0] <= 'z' || 'A' <= body[0] <= 'Z' || '0' <= body[0] <= '9' || body[0] == '_'))
  }

  function Tag(body: string): string {
    "<a" + body + ">"
  }

  /** An anchor tag starts after these characters. */
  ghost predicate Starts(s: string, n: nat) {
    exists a, body, rest :: |a| == n && Goes(body) && s == a + Tag(body) + rest
  }

  lemma TagParts(a: string, body: string, rest: string)
    ensures var s, i := a + Tag(body) + rest, |a|;
            && At(s, i, "<a") && s[i + 2..] == body + ">" + rest && s[i..i + |body| + 3] == Tag(body)
            && s[i + |body| + 3..] == rest && |s| >= i + |body| + 3
  {
    var s, i := a + Tag(body) + rest, |a|;
    assert s[i..] == Tag(body) + rest;
    assert (Tag(body) + rest)[2..] == body + ">" + rest;
    assert s[i..i + 2] == "<a";
  }

  lemma EndWritten(a: string, body: string, rest: string)
    requires Goes(body)
    ensures AnchorEnd(a + Tag(body) + rest, |a|) == Some(|a| + |body| + 3)
  {
    var s, i := a + Tag(body) + rest, |a|;
    TagParts(a, body, rest);
    var t := s[i + 2..];
    assert t[|body|] == '>' && forall k | 0 <= k < |body| :: t[k] == body[k];
    assert IndexOf(t, '>') == |body|;
    assert i + 2 < |s| ==> s[i + 2] == t[0];
    hide At, Tag, Free, IndexOf;
  }

  lemma EndFound(s: string, i: nat)
    requires i <= |s| && AnchorEnd(s, i).Some?
    ensures Starts(s, i)
  {
    var n := IndexOf(s[i + 2..], '>');
    var body := s[i + 2..][..n];
    EndShape(s, i, n);
    hide AnchorEnd, IndexOf, Goes;
    assert s == s[..i] + Tag(body) + s[i + n + 3..];
  }

  lemma EndShape(s: string, i: nat, n: nat)
    requires i <= |s| && AnchorEnd(s, i).Some? && n == IndexOf(s[i + 2..], '>')
    ensures i + n + 3 <= |s| && s[i..i + 2] == "<a" && s[i + n + 2] == '>' && Goes(s[i + 2..][..n])
  {
    hide IndexOf;
  }

  lemma StartsIff(s: string, i: nat)
    requires i <= |s|
    ensures AnchorEnd(s, i).Some? <==> Starts(s, i)
  {
    hide AnchorEnd, Goes, Tag;
    if AnchorEnd(s, i).Some? {
      EndFound(s, i);
    }
    if a, body, rest :| |a| == i && Goes(body) && s == a + Tag(body) + rest {
      EndWritten(a, body, rest);
    }
  }

  /** Where a tag starts does not depend on the text before. */
  lemma EndLater(a: string, s: string, i: nat)
    requires i <= |s|
    ensures AnchorEnd(a + s, |a| + i) ==
            if AnchorEnd(s, i).Some? then Some(|a| + AnchorEnd(s, i).value) else None
  {
    var t := a + s;
    assert t[|a| + i..] == s[i..];
    assert At(t, |a| + i, "<a") <==> At(s, i, "<a") by {
      assert i + 2 <= |s| ==> t[|a| + i..|a| + i + 2] == s[i..i + 2];
    }
    assert i + 2 <= |s| ==> t[|a| + i + 2..] == s[i + 2..];
    assert i + 2 < |s| ==> t[|a| + i + 2] == s[i + 2];
    hide At, IndexOf, IsWord;
  }

  lemma {:induction false} AnchorsLater(a: string, s: string, i: nat)
    requires i <= |s|
    ensures Anchors(a + s, |a| + i) == Anchors(s, i)
    decreases |s| - i
  {
    hide AnchorEnd;
    if i < |s| {
      EndLater(a, s, i);
      match AnchorEnd(s, i)
      case Some(e) =>
        AnchorsLater(a, s, e);
        assert (a + s)[|a| + i..|a| + e] == s[i..e];
      case None =>
        AnchorsLater(a, s, i + 1);
    }
  }

  lemma {:induction false} Skipped(s: string, i: nat, n: nat)
    requires i <= n <= |s| && forall k | i <= k < n :: !Starts(s, k)
    ensures Anchors(s, i) == Anchors(s, n)
    decreases n - i
  {
    hide AnchorEnd, Starts;
    if i < n {
      StartsIff(s, i);
      Skipped(s, i + 1, n);
    }
  }

  /** The anchor tags of a page, from its start to its end: the first one, then those of the text after it. */
  lemma AnchorsAre(a: string, body: string, rest: string)
    ensures (forall k | 0 <= k <= |a| :: !Starts(a, k)) ==> Anchors(a, 0) == []
    ensures var s := a + Tag(body) + rest;
            Goes(body) && (forall k | 0 <= k < |a| :: !Starts(s, k)) ==> Anchors(s, 0) == [Tag(body)] + Anchors(rest, 0)
  {
    var s, e := a + Tag(body) + rest, |a| + |body| + 3;
    hide *;
    if forall k | 0 <= k <= |a| :: !Starts(a, k) {
      Skipped(a, 0, |a|);
      AnchorsEnd(a);
    }
    if Goes(body) && forall k | 0 <= k < |a| :: !Starts(s, k) {
      TagParts(a, body, rest);
      EndWritten(a, body, rest);
      Skipped(s, 0, |a|);
      AnchorsStep(s, |a|, e);
      AnchorsLater(s[..e], rest, 0);
      assert s[..e] + rest == s;
    }
  }

  lemma AnchorsEnd(s: string)
    ensures Anchors(s, |s|) == []
  {
  }

  lemma AnchorsStep(s: string, i: nat, e: nat)
    requires i < |s| && AnchorEnd(s, i) == Some(e)
    ensures Anchors(s, i) == [s[i..e]] + Anchors(s, e)
  {
    hide AnchorEnd;
  }

  /** An attribute that reads back: a name of letters and dashes that starts with a letter, and a value without a
      double quote. */
  lemma ReadableIff(a: Attribute)
    ensures ReadableOne(a) <==>
            && a.name != "" && a.name[0] != '-' && (forall k | 0 <= k < |a.value| :: a.value[k] != '"')
            && (forall k | 0 <= k < |a.name| ::
                  'a' <= a.name[k] <= 'z' || 'A' <= a.name[k] <= 'Z' || a.name[k] == '-')
  {
  }
}
