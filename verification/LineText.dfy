/** What replay makes of any line. */
module LineText {
  import opened Json
  import opened JsonText
  import opened JsonScan
  import opened Options
  import R = RecordCodec

  // ------------------------------------------------------------------------------- What a line says

  /** The name is this word of capital letters, of either case letter by letter; U+017F, a long s, counts as an s. */
  predicate IsNamed(name: Bytes, word: Bytes)
    decreases |word|
  {
    if word == [] then name == []
    else
      || (name != [] && (name[0] == word[0] || name[0] as int == word[0] as int + 32) && IsNamed(name[1..], word[1..]))
      || (word[0] == 'S' && |name| >= 2 && name[0] as int == 0xC5 && name[1] as int == 0xBF
          && IsNamed(name[2..], word[1..]))
  }

  datatype Fields = Fields(user: Bytes, challenge: Bytes, mistyped: bool)

  /** One member read into the fields: null says nothing, other values that are no strings are wrong for a field. */
  function Taken(f: Fields, name: Bytes, v: Value): Fields {
    match v
    case Str(body) =>
      if IsNamed(name, "USER") then f.(user := Unquote(body))
      else if IsNamed(name, "CHALLENGE") then f.(challenge := Unquote(body))
      else f
    case _ =>
      if v != Word("null") && (IsNamed(name, "USER") || IsNamed(name, "CHALLENGE") || IsNamed(name, "AT"))
      then f.(mistyped := true) else f
  }

  function AllTaken(f: Fields, members: Members): Fields
    decreases members
  {
    match members
    case NoMembers => f
    case Member(_, key, _, _, v, _, more) => AllTaken(Taken(f, Unquote(key), v), more)
  }

  /** The solve of an object: the last user and the last challenge it names, if both are there, no field of the
      record has a value of the wrong type, and neither is empty. */
  function SolveOf(members: Members): Option<R.Pair> {
    var f := AllTaken(Fields("", "", false), members);
    if !f.mistyped && f.user != "" && f.challenge != "" then Some(R.Pair(f.user, f.challenge)) else None
  }

  lemma {:induction false} FoldIs(name: Bytes, word: Bytes)
    requires forall i | 0 <= i < |word| :: 'A' <= word[i] <= 'Z'
    ensures R.Fold(name) == word <==> IsNamed(name, word)
    decreases |name|
  {
    if name != [] {
      if |name| >= 2 && name[0] as int == 0xC5 && name[1] as int == 0xBF {
        LongS(name, word);
        if word != [] {
          FoldIs(name[2..], word[1..]);
        }
      } else {
        OtherLetter(name, word);
        if word != [] {
          FoldIs(name[1..], word[1..]);
        }
      }
    }
  }

  lemma LongS(name: Bytes, word: Bytes)
    requires |name| >= 2 && name[0] as int == 0xC5 && name[1] as int == 0xBF
    requires forall i | 0 <= i < |word| :: 'A' <= word[i] <= 'Z'
    ensures IsNamed(name, word) <==> word != [] && word[0] == 'S' && IsNamed(name[2..], word[1..])
    ensures R.Fold(name) == word <==> word != [] && word[0] == 'S' && R.Fold(name[2..]) == word[1..]
  {
    assert word != [] ==> word == [word[0]] + word[1..];
    assert "S" + R.Fold(name[2..]) == ['S'] + R.Fold(name[2..]);
  }

  lemma OtherLetter(name: Bytes, word: Bytes)
    requires name != [] && !(|name| >= 2 && name[0] as int == 0xC5 && name[1] as int == 0xBF)
    requires forall i | 0 <= i < |word| :: 'A' <= word[i] <= 'Z'
    ensures IsNamed(name, word) <==>
            word != [] && R.Upper(name[0]) == word[0] && IsNamed(name[1..], word[1..])
    ensures R.Fold(name) == word <==> word != [] && R.Upper(name[0]) == word[0] && R.Fold(name[1..]) == word[1..]
  {
    assert word != [] ==> word == [word[0]] + word[1..];
  }

  // ------------------------------------------------------------------------------- Inside deeper brackets

  /** At every byte of the text more than one bracket is open. */
  predicate Deep(s: Scanner, b: Bytes, depth: nat)
    decreases |b|
  {
    b != [] ==> |s.stack| >= depth && Deep(Step(s, b[0]), b[1..], depth)
  }

  lemma {:induction false} DeepJoins(s: Scanner, a: Bytes, b: Bytes, depth: nat)
    ensures Deep(s, a + b, depth) <==> Deep(s, a, depth) && Deep(Scan(s, a), b, depth)
    decreases |a|
  {
    hide Step;
    if a == [] {
      assert a + b == b;
    } else {
      assert (a + b)[1..] == a[1..] + b;
      DeepJoins(Step(s, a[0]), a[1..], b, depth);
    }
  }

  lemma {:induction false} DeepMore(s: Scanner, b: Bytes, depth: nat, less: nat)
    requires Deep(s, b, depth) && less <= depth
    ensures Deep(s, b, less)
    decreases |b|
  {
    hide Step;
    if b != [] {
      DeepMore(Step(s, b[0]), b[1..], depth, less);
    }
  }

  /** Deep text leaves the record alone. */
  lemma {:induction false} ReadDeep(r: R.Reader, b: Bytes)
    requires Deep(r.sc, b, 2)
    ensures R.ReadAll(r, b) == r.(sc := Scan(r.sc, b))
    decreases |b|
  {
    hide Step;
    if b != [] {
      var next := r.(sc := Step(r.sc, b[0]));
      assert R.Read(r, b[0]) == next;
      ReadDeep(next, b[1..]);
    }
  }

  /** Text without structure, in or out of a string, keeps the brackets. */
  predicate Flat(b: Bytes) {
    forall i | 0 <= i < |b| :: b[i] !in "[]{}:,"
  }

  lemma {:induction false} FlatDeep(s: Scanner, b: Bytes)
    requires Flat(b)
    ensures Scan(s, b).stack == s.stack && Deep(s, b, |s.stack|)
    decreases |b|
  {
    if b != [] {
      FlatStep(s, b[0]);
      hide Step;
      FlatDeep(Step(s, b[0]), b[1..]);
    }
  }

  lemma FlatStep(s: Scanner, c: char)
    requires c !in "[]{}:,"
    ensures Step(s, c).stack == s.stack
  {
  }

  /** The inside of a string. */
  lemma {:induction false} BodyDeep(s: Scanner, body: Bytes)
    requires s.mode.InString? && IsBody(body)
    ensures Scan(s, body) == s && Deep(s, body, |s.stack|)
    decreases |body|
  {
    if body != [] {
      var n := BodyUnit(body);
      hide IsBody;
      UnitDeep(s, body[..n]);
      BodyDeep(s, body[n..]);
      hide *;
      assert body == body[..n] + body[n..];
      ScanPart(s, body, n);
      DeepJoins(s, body[..n], body[n..], |s.stack|);
    }
  }

  lemma UnitDeep(s: Scanner, u: Bytes)
    requires s.mode.InString? && u != [] && IsUnit(u, |u|)
    ensures Scan(s, u) == s && Deep(s, u, |s.stack|)
  {
    if |u| == 2 {
      EscapeStep(s, u);
      hide Step, Scan, Deep, IsUnit;
      OneDeep(s.To(InEscape), u[1..], s, |s.stack|);
      MoreDeep(s, u, s.To(InEscape), s, |s.stack|);
    } else if |u| == 6 {
      EscapeStep(s, u);
      HexDeep(s, u[2..], 4);
      hide Step, Scan, Deep, IsUnit;
      assert u[1..][1..] == u[2..];
      MoreDeep(s.To(InEscape), u[1..], s.To(InUnicode(4)), s, |s.stack|);
      MoreDeep(s, u, s.To(InEscape), s, |s.stack|);
    } else {
      PlainStep(s, u);
      hide Step, Scan, Deep, IsUnit;
      OneDeep(s, u, s, |s.stack|);
    }
  }

  lemma EscapeStep(s: Scanner, u: Bytes)
    requires s.mode.InString? && IsUnit(u, |u|) && (|u| == 2 || |u| == 6)
    ensures var t := s.To(InEscape);
            Step(s, u[0]) == t && Step(t, u[1..][0]) == if |u| == 2 then s else s.To(InUnicode(4))
    ensures s.To(InEscape).stack == s.To(InUnicode(4)).stack == s.stack
  {
  }

  lemma PlainStep(s: Scanner, u: Bytes)
    requires s.mode.InString? && IsUnit(u, |u|) && |u| != 2 && |u| != 6
    ensures |u| == 1 && Step(s, u[0]) == s
  {
  }

  lemma OneDeep(s: Scanner, u: Bytes, end: Scanner, depth: nat)
    requires |u| == 1 && Step(s, u[0]) == end && |s.stack| >= depth
    ensures Scan(s, u) == end && Deep(s, u, depth)
  {
    assert u[1..] == [];
    hide Step;
  }

  lemma MoreDeep(s: Scanner, u: Bytes, next: Scanner, end: Scanner, depth: nat)
    requires u != [] && Step(s, u[0]) == next && |s.stack| >= depth && Scan(next, u[1..]) == end
    requires Deep(next, u[1..], depth)
    ensures Scan(s, u) == end && Deep(s, u, depth)
  {
    hide Step;
  }

  lemma {:induction false} HexDeep(s: Scanner, u: Bytes, left: nat)
    requires s.mode.InString? && 1 <= left == |u| && forall i | 0 <= i < left :: IsHexDigit(u[i])
    ensures Scan(s.To(InUnicode(left)), u) == s && Deep(s.To(InUnicode(left)), u, |s.stack|)
    decreases left
  {
    var t := s.To(InUnicode(left));
    if left > 1 {
      assert Step(t, u[0]) == s.To(InUnicode(left - 1));
      HexDeep(s, u[1..], left - 1);
    } else {
      assert Step(t, u[0]) == s && u[1..] == [];
    }
  }

  /** Reading the text leads from one state to another, with at least so many brackets open at every byte. */
  predicate Goes(s: Scanner, b: Bytes, end: Scanner, depth: nat) {
    Scan(s, b) == end && Deep(s, b, depth)
  }

  lemma GoesOn(s: Scanner, a: Bytes, m: Scanner, b: Bytes, end: Scanner, depth: nat)
    requires Goes(s, a, m, depth) && Goes(m, b, end, depth)
    ensures Goes(s, a + b, end, depth)
  {
    hide Scan, Deep;
    ScanAppend(s, a, b);
    DeepJoins(s, a, b, depth);
  }

  lemma GoesOne(s: Scanner, c: char, end: Scanner, depth: nat)
    requires Step(s, c) == end && |s.stack| >= depth
    ensures Goes(s, [c], end, depth)
  {
    hide Step;
    OneDeep(s, [c], end, depth);
  }

  lemma GoesLess(s: Scanner, b: Bytes, end: Scanner, depth: nat, less: nat)
    requires Goes(s, b, end, depth) && less <= depth
    ensures Goes(s, b, end, less)
  {
    hide Scan, Deep;
    DeepMore(s, b, depth, less);
  }

  predicate BeforeSomething(m: Mode) {
    m.BeginValue? || m.BeginValueOrEmpty? || m.BeginKey? || m.BeginKeyOrEmpty?
  }

  lemma {:induction false} GapGoes(s: Scanner, gap: Bytes)
    requires BeforeSomething(s.mode) && IsGap(gap)
    ensures Goes(s, gap, s, |s.stack|)
    decreases |gap|
  {
    if gap != [] {
      assert Step(s, gap[0]) == s;
      hide Step;
      GapGoes(s, gap[1..]);
    }
  }

  /** After a value in brackets: white space and the byte that follows. */
  lemma {:induction false} AfterGoes(t: Scanner, stack: seq<Context>, gap: Bytes, c: char)
    requires stack != [] && Ended(t, stack, []) && IsGap(gap) && (c in ",]}" || (t.mode.EndValue? && c == ':'))
    ensures Goes(t, gap + [c], AfterValue(Scanner(EndValue, stack), c), |stack|)
    decreases |gap|
  {
    if gap == [] {
      assert gap + [c] == [c];
      EndedBefore(t, stack, c);
      hide Step;
      GoesOne(t, c, AfterValue(Scanner(EndValue, stack), c), |stack|);
    } else {
      var u := Scanner(EndValue, stack);
      EndedBefore(t, stack, gap[0]);
      assert AfterValue(u, gap[0]) == u;
      EndedAt(stack, []);
      hide Step, AfterValue;
      AfterGoes(u, stack, gap[1..], c);
      assert (gap + [c])[1..] == gap[1..] + [c];
      hide Scan, Deep, Goes;
      GoesFirst(t, gap + [c], u, AfterValue(u, c), |stack|);
    }
  }

  lemma GoesFirst(s: Scanner, b: Bytes, next: Scanner, end: Scanner, depth: nat)
    requires b != [] && Step(s, b[0]) == next && |s.stack| >= depth && Goes(next, b[1..], end, depth)
    ensures Goes(s, b, end, depth)
  {
    hide Step;
  }

  lemma EndedBefore(t: Scanner, stack: seq<Context>, c: char)
    requires Ended(t, stack, []) && (Space(c) || c in ",]}" || t.mode.EndValue?)
    ensures Step(t, c) == AfterValue(Scanner(EndValue, stack), c)
  {
  }

  lemma ValueEnds(v: Value, stack: seq<Context>)
    requires Proper(v)
    ensures Ended(Scan(Scanner(BeginValue, stack), Text(v)), stack, [])
  {
    EndsNowhere(v);
    hide *;
    ValuePrinted(v, []);
    NothingAfter(Text(v));
    var t := ScanValue(stack, Text(v));
    FollowsAll(stack, t, Text(v), v);
  }

  lemma EndsNowhere(v: Value)
    ensures Ends(v, [])
  {
  }

  lemma NothingAfter(b: Bytes)
    ensures b + [] == b
  {
  }

  lemma FollowsAll(stack: seq<Context>, t: Scanner, b: Bytes, v: Value)
    requires b != [] && !Space(b[0]) && ParseValue(b) == Got(v, [])
    requires Follows(stack, Scanner(BeginValue, stack), b, t, ParseValue(b))
    ensures Ended(Scan(Scanner(BeginValue, stack), b), stack, [])
  {
    hide Ended, Step;
    ScanNone(t);
  }

  // ------------------------------------------------------------------------------- Values are deep

  /** Where the text of a value leads. */
  function EndOf(v: Value, stack: seq<Context>): Scanner {
    Scan(Scanner(BeginValue, stack), Text(v))
  }

  lemma {:induction false} ValueGoes(v: Value, stack: seq<Context>)
    requires Proper(v)
    ensures Goes(Scanner(BeginValue, stack), Text(v), EndOf(v, stack), |stack|)
    decreases v, 0
  {
    var s := Scanner(BeginValue, stack);
    match v
    case Str(body) =>
      hide *;
      StringGoes(stack, body);
    case Num(_, _, _, _) =>
      NumberFlat(v);
      hide Scan, Step, Deep, Flat;
      FlatDeep(s, Text(v));
    case Word(_) =>
      WordFlat(v);
      hide Scan, Step, Deep, Flat;
      FlatDeep(s, Text(v));
    case EmptyArr(gap) =>
      hide *;
      EmptyGoes(v, gap, stack);
    case EmptyObj(gap) =>
      hide *;
      EmptyGoes(v, gap, stack);
    case Arr(items) =>
      ItemsGoes(items, stack);
      hide *;
      ArrayGoes(items, stack);
    case Obj(members) =>
      MembersGoes(members, stack);
      hide *;
      ObjectGoes(members, stack);
  }

  lemma EndsThere(v: Value, stack: seq<Context>, end: Scanner, depth: nat)
    requires Goes(Scanner(BeginValue, stack), Text(v), end, depth)
    ensures EndOf(v, stack) == end
  {
    hide Scan, Text, Deep;
  }

  lemma StringGoes(stack: seq<Context>, body: Bytes)
    requires Proper(Str(body))
    ensures Goes(Scanner(BeginValue, stack), Text(Str(body)), EndOf(Str(body), stack), |stack|)
    ensures EndOf(Str(body), stack) == Scanner(EndValue, stack)
  {
    var s, t, u := Scanner(BeginValue, stack), Scanner(InString, stack), Scanner(EndValue, stack);
    assert Step(s, '"') == t && Step(t, '"') == u;
    ProperString(body);
    hide Step, Scan, Deep, IsBody, Proper, Text, EndOf;
    GoesOne(s, '"', t, |stack|);
    BodyDeep(t, body);
    GoesOne(t, '"', u, |stack|);
    GoesOn(s, ['"'], t, body, t, |stack|);
    GoesOn(s, ['"'] + body, t, ['"'], u, |stack|);
    TextOfString(body);
    assert ['"'] + body + ['"'] == "\"" + body + "\"";
    EndsThere(Str(body), stack, u, |stack|);
  }

  lemma NumberFlat(v: Value)
    requires Proper(v) && v.Num?
    ensures Flat(Text(v))
  {
    NumberParts(v);
    hide Text, Proper, FractionText, PowerText;
    PartsFlat(v);
    hide AreDigits, IsPower, Flat;
    FlatJoins(if v.minus then "-" else "", v.whole);
    FlatJoins((if v.minus then "-" else "") + v.whole, FractionText(v.fraction));
    FlatJoins((if v.minus then "-" else "") + v.whole + FractionText(v.fraction), PowerText(v.exponent));
  }

  lemma PartsFlat(v: Value)
    requires v.Num? && AreDigits(v.whole)
    requires (v.fraction.Some? ==> AreDigits(v.fraction.value)) && (v.exponent.Some? ==> IsPower(v.exponent.value))
    ensures Flat(if v.minus then "-" else "") && Flat(v.whole) && Flat(FractionText(v.fraction))
    ensures Flat(PowerText(v.exponent))
  {
  }

  lemma FlatJoins(a: Bytes, b: Bytes)
    requires Flat(a) && Flat(b)
    ensures Flat(a + b)
  {
  }

  lemma WordFlat(v: Value)
    requires Proper(v) && v.Word?
    ensures Flat(Text(v))
  {
  }

  lemma OpensAt(stack: seq<Context>)
    ensures Step(Scanner(BeginValue, stack), '[') == Scanner(BeginValueOrEmpty, stack + [Element])
    ensures Step(Scanner(BeginValue, stack), '{') == Scanner(BeginKeyOrEmpty, stack + [Context.Key])
    ensures Step(Scanner(BeginValueOrEmpty, stack + [Element]), ']') == Closed(stack)
    ensures Step(Scanner(BeginKeyOrEmpty, stack + [Context.Key]), '}') == Closed(stack)
  {
    assert (stack + [Element])[..|stack|] == stack && (stack + [Context.Key])[..|stack|] == stack;
  }

  lemma EmptyGoes(v: Value, gap: Bytes, stack: seq<Context>)
    requires (v == EmptyArr(gap) || v == EmptyObj(gap)) && Proper(v)
    ensures Goes(Scanner(BeginValue, stack), Text(v), EndOf(v, stack), |stack|)
    ensures EndOf(v, stack) == Closed(stack)
  {
    var s := Scanner(BeginValue, stack);
    var t := if v.EmptyArr? then Scanner(BeginValueOrEmpty, stack + [Element])
      else Scanner(BeginKeyOrEmpty, stack + [Context.Key]);
    var open, close := if v.EmptyArr? then '[' else '{', if v.EmptyArr? then ']' else '}';
    OpensAt(stack);
    EmptyArray(gap);
    EmptyObject(gap);
    hide Step, Scan, Deep, IsGap, Proper, Text, EndOf, Closed, Goes;
    GoesOne(s, open, t, |stack|);
    GapGoes(t, gap);
    GoesLess(t, gap, t, |stack| + 1, |stack|);
    GoesOne(t, close, Closed(stack), |stack|);
    GoesOn(s, [open], t, gap, t, |stack|);
    GoesOn(s, [open] + gap, t, [close], Closed(stack), |stack|);
    EndsThere(v, stack, Closed(stack), |stack|);
  }

  lemma FirstAt(stack: seq<Context>, c: char)
    requires !Space(c)
    ensures c != ']' ==>
              Step(Scanner(BeginValueOrEmpty, stack + [Element]), c) == Step(Scanner(BeginValue, stack + [Element]), c)
    ensures c == '"' ==>
              Step(Scanner(BeginKeyOrEmpty, stack + [Context.Key]), c)
              == Step(Scanner(BeginKey, stack + [Context.Key]), c)
  {
  }

  /** In a bracket that is not empty it makes no difference that it might have been. */
  lemma {:induction false} OrEmptyGoes(s: Scanner, t: Scanner, gap: Bytes, b: Bytes, end: Scanner, depth: nat)
    requires BeforeSomething(s.mode) && BeforeSomething(t.mode) && s.stack == t.stack && IsGap(gap)
    requires b != [] && Step(s, b[0]) == Step(t, b[0]) && Goes(t, gap + b, end, depth)
    ensures Goes(s, gap + b, end, depth)
  {
    hide Step, Scan, Deep, IsGap;
    GapGoes(s, gap);
    GapGoes(t, gap);
    ScanAppend(s, gap, b);
    ScanAppend(t, gap, b);
    DeepJoins(s, gap, b, depth);
    DeepJoins(t, gap, b, depth);
    SameFirst(s, t, b, depth);
    ShallowGap(s, gap, t, depth);
  }

  lemma SameFirst(s: Scanner, t: Scanner, b: Bytes, depth: nat)
    requires b != [] && Step(s, b[0]) == Step(t, b[0]) && s.stack == t.stack
    ensures Scan(s, b) == Scan(t, b) && (Deep(s, b, depth) <==> Deep(t, b, depth))
  {
    hide Step;
  }

  lemma ShallowGap(s: Scanner, gap: Bytes, t: Scanner, depth: nat)
    requires Goes(s, gap, s, |s.stack|) && Goes(t, gap, t, |t.stack|) && s.stack == t.stack
    ensures Deep(s, gap, depth) <==> Deep(t, gap, depth)
  {
    hide Step, Scan;
    if |s.stack| >= depth {
      DeepMore(s, gap, |s.stack|, depth);
      DeepMore(t, gap, |s.stack|, depth);
    }
  }

  lemma ArrayGoes(items: Items, stack: seq<Context>)
    requires items.Item? && ProperItems(items)
    requires Goes(Scanner(BeginValue, stack + [Element]), ItemsText(items) + "]", Closed(stack), |stack| + 1)
    ensures Goes(Scanner(BeginValue, stack), Text(Arr(items)), EndOf(Arr(items), stack), |stack|)
    ensures EndOf(Arr(items), stack) == Closed(stack)
  {
    var s, t := Scanner(BeginValue, stack), Scanner(BeginValueOrEmpty, stack + [Element]);
    OpensAt(stack);
    FullArray(items);
    FirstItem(items, stack);
    hide Step, Scan, Deep, Proper, Text, EndOf, Closed, Goes, ItemsText;
    GoesLess(t, ItemsText(items) + "]", Closed(stack), |stack| + 1, |stack|);
    GoesOne(s, '[', t, |stack|);
    GoesOn(s, ['['], t, ItemsText(items) + "]", Closed(stack), |stack|);
    Grouped("[", ItemsText(items), "]");
    assert ['['] + (ItemsText(items) + "]") == Text(Arr(items));
    EndsThere(Arr(items), stack, Closed(stack), |stack|);
  }

  lemma FirstItem(items: Items, stack: seq<Context>)
    requires items.Item? && ProperItems(items)
    requires Goes(Scanner(BeginValue, stack + [Element]), ItemsText(items) + "]", Closed(stack), |stack| + 1)
    ensures Goes(Scanner(BeginValueOrEmpty, stack + [Element]), ItemsText(items) + "]", Closed(stack), |stack| + 1)
  {
    var Item(before, v, after, more) := items;
    var next := if more.Item? then "," + ItemsText(more) else "";
    var b := Text(v) + (after + (next + "]" + ""));
    ItemPrinted(before, v, after, next, "");
    Afterwards(v, after, next + "]" + "");
    ValuePrinted(v, after + (next + "]" + ""));
    NothingAfter(ItemsText(items) + "]");
    assert ItemsText(items) + "]" == before + b;
    FirstAt(stack, b[0]);
    hide Step, Scan, Deep, Proper, Text, Closed, Goes, ItemsText;
    OrEmptyGoes(Scanner(BeginValueOrEmpty, stack + [Element]), Scanner(BeginValue, stack + [Element]), before, b,
                Closed(stack), |stack| + 1);
  }

  lemma {:induction false} ItemsGoes(items: Items, stack: seq<Context>)
    requires items.Item? && ProperItems(items)
    ensures Goes(Scanner(BeginValue, stack + [Element]), ItemsText(items) + "]", Closed(stack), |stack| + 1)
    decreases items, 1
  {
    var Item(before, v, after, more) := items;
    var s := Scanner(BeginValue, stack + [Element]);
    ValueGoes(v, stack + [Element]);
    if more.Item? {
      ItemsGoes(more, stack);
    }
    ItemJoined(before, Text(v), after, if more.Item? then ItemsText(more) else "", more.Item?, "]");
    ItemsTextIs(items);
    var t, d := EndOf(v, stack + [Element]), |stack| + 1;
    var c := if more.Item? then ',' else ']';
    hide Step, Scan, Deep, Proper, Text, EndOf, Closed, Goes, ItemsText, ProperItems, IsGap, Ended, AfterValue;
    EndedThere(v, stack + [Element]);
    GapGoes(s, before);
    AfterGoes(t, stack + [Element], after, c);
    AfterItem(stack, c);
    GoesOn(s, before, s, Text(v), t, d);
    GoesOn(s, before + Text(v), t, after + [c], if more.Item? then s else Closed(stack), d);
    if more.Item? {
      GoesOn(s, before + Text(v) + (after + [c]), s, ItemsText(more) + "]", Closed(stack), d);
    }
  }

  lemma EndedThere(v: Value, stack: seq<Context>)
    requires Proper(v)
    ensures Ended(EndOf(v, stack), stack, [])
  {
    hide Scan, Text, Ended;
    ValueEnds(v, stack);
  }

  lemma ItemsTextIs(items: Items)
    requires items.Item?
    ensures ItemsText(items) == items.before + Text(items.value) + items.after
                                + (if items.more.Item? then "," + ItemsText(items.more) else "")
  {
  }

  lemma ItemJoined(front: Bytes, text: Bytes, after: Bytes, more: Bytes, goesOn: bool, close: Bytes)
    requires |close| == 1
    ensures front + text + after + (if goesOn then "," + more else "") + close
            == if goesOn then front + text + (after + [',']) + (more + close) else front + text + (after + [close[0]])
  {
    if goesOn {
      assert front + text + after + ("," + more) + close == front + text + after + "," + (more + close);
      assert front + text + after + "," == front + text + (after + [',']);
    } else {
      assert front + text + after + "" == front + text + after;
      assert front + text + after + close == front + text + (after + [close[0]]);
    }
  }

  // ------------------------------------------------------------------------------- Members

  /** A name and its colon. */
  lemma NameGoes(stack: seq<Context>, before: Bytes, key: Bytes, left: Bytes, right: Bytes)
    requires IsGap(before) && IsBody(key) && IsGap(left) && IsGap(right)
    ensures Goes(Scanner(BeginKey, stack + [Context.Key]), before + "\"" + key + "\"" + left + ":" + right,
                 Scanner(BeginValue, stack + [Context.Value]), |stack| + 1)
  {
    var s, t, u := Scanner(BeginKey, stack + [Context.Key]), Scanner(InString, stack + [Context.Key]),
      Scanner(EndValue, stack + [Context.Key]);
    var w, d := Scanner(BeginValue, stack + [Context.Value]), |stack| + 1;
    assert Step(s, '"') == t && Step(t, '"') == u;
    AfterName(stack, ':');
    EndedAt(stack + [Context.Key], []);
    hide Step, Scan, Deep, IsGap, IsBody, Goes, AfterValue, Ended;
    GapGoes(s, before);
    GoesOne(s, '"', t, d);
    KeyGoes(t, key, d);
    GoesOne(t, '"', u, d);
    AfterGoes(u, stack + [Context.Key], left, ':');
    GapGoes(w, right);
    GoesOn(s, before, s, ['"'], t, d);
    GoesOn(s, before + ['"'], t, key, t, d);
    GoesOn(s, before + ['"'] + key, t, ['"'], u, d);
    GoesOn(s, before + ['"'] + key + ['"'], u, left + [':'], w, d);
    GoesOn(s, before + ['"'] + key + ['"'] + (left + [':']), w, right, w, d);
    assert "\"" == ['"'] && ":" == [':'];
    assert before + ['"'] + key + ['"'] + (left + [':']) == before + ['"'] + key + ['"'] + left + [':'];
  }

  lemma KeyGoes(t: Scanner, key: Bytes, depth: nat)
    requires t.mode.InString? && IsBody(key) && |t.stack| == depth
    ensures Goes(t, key, t, depth)
  {
    hide Scan, Deep, IsBody;
    BodyDeep(t, key);
  }

  lemma MembersTextIs(members: Members)
    requires members.Member?
    ensures MembersText(members)
            == members.before + "\"" + members.key + "\"" + members.left + ":" + members.right + Text(members.value)
               + members.after + (if members.more.Member? then "," + MembersText(members.more) else "")
  {
  }

  lemma {:induction false} MembersGoes(members: Members, stack: seq<Context>)
    requires members.Member? && ProperMembers(members)
    ensures Goes(Scanner(BeginKey, stack + [Context.Key]), MembersText(members) + "}", Closed(stack), |stack| + 1)
    decreases members, 1
  {
    var Member(before, key, left, right, v, after, more) := members;
    var s, w := Scanner(BeginKey, stack + [Context.Key]), Scanner(BeginValue, stack + [Context.Value]);
    ValueGoes(v, stack + [Context.Value]);
    if more.Member? {
      MembersGoes(more, stack);
    }
    var front := before + "\"" + key + "\"" + left + ":" + right;
    ItemJoined(front, Text(v), after, if more.Member? then MembersText(more) else "", more.Member?, "}");
    MembersTextIs(members);
    var t, d := EndOf(v, stack + [Context.Value]), |stack| + 1;
    var c := if more.Member? then ',' else '}';
    hide Step, Scan, Deep, Proper, Text, EndOf, Closed, Goes, MembersText, ProperMembers, IsGap, IsBody, Ended,
         AfterValue;
    EndedThere(v, stack + [Context.Value]);
    NameGoes(stack, before, key, left, right);
    AfterGoes(t, stack + [Context.Value], after, c);
    AfterMember(stack, c);
    GoesOn(s, front, w, Text(v), t, d);
    GoesOn(s, front + Text(v), t, after + [c], if more.Member? then s else Closed(stack), d);
    if more.Member? {
      GoesOn(s, front + Text(v) + (after + [c]), s, MembersText(more) + "}", Closed(stack), d);
    }
  }

  lemma ObjectGoes(members: Members, stack: seq<Context>)
    requires members.Member? && ProperMembers(members)
    requires Goes(Scanner(BeginKey, stack + [Context.Key]), MembersText(members) + "}", Closed(stack), |stack| + 1)
    ensures Goes(Scanner(BeginValue, stack), Text(Obj(members)), EndOf(Obj(members), stack), |stack|)
    ensures EndOf(Obj(members), stack) == Closed(stack)
  {
    var s, t := Scanner(BeginValue, stack), Scanner(BeginKeyOrEmpty, stack + [Context.Key]);
    OpensAt(stack);
    FullObject(members);
    FirstMember(members, stack);
    hide Step, Scan, Deep, Proper, Text, EndOf, Closed, Goes, MembersText;
    GoesLess(t, MembersText(members) + "}", Closed(stack), |stack| + 1, |stack|);
    GoesOne(s, '{', t, |stack|);
    GoesOn(s, ['{'], t, MembersText(members) + "}", Closed(stack), |stack|);
    Grouped("{", MembersText(members), "}");
    assert ['{'] + (MembersText(members) + "}") == Text(Obj(members));
    EndsThere(Obj(members), stack, Closed(stack), |stack|);
  }

  lemma FirstMember(members: Members, stack: seq<Context>)
    requires members.Member? && ProperMembers(members)
    requires Goes(Scanner(BeginKey, stack + [Context.Key]), MembersText(members) + "}", Closed(stack), |stack| + 1)
    ensures Goes(Scanner(BeginKeyOrEmpty, stack + [Context.Key]), MembersText(members) + "}", Closed(stack),
                 |stack| + 1)
  {
    var b := MemberStart(members);
    FirstAt(stack, '"');
    hide Step, Scan, Deep, Proper, Text, Closed, Goes, MembersText;
    OrEmptyGoes(Scanner(BeginKeyOrEmpty, stack + [Context.Key]), Scanner(BeginKey, stack + [Context.Key]),
                members.before, b, Closed(stack), |stack| + 1);
  }

  lemma MemberStart(members: Members) returns (b: Bytes)
    requires members.Member?
    ensures MembersText(members) + "}" == members.before + b && b != [] && b[0] == '"'
  {
    var Member(before, key, left, right, v, after, more) := members;
    var next := if more.Member? then "," + MembersText(more) else "";
    MembersTextIs(members);
    hide MembersText, Text;
    MemberPrinted(before, key, left, right, Text(v), after, next, "");
    b := "\"" + (key + "\"" + (left + (":" + (right + (Text(v) + (after + (next + "}" + "")))))));
    NothingAfter(MembersText(members) + "}");
  }

  // ------------------------------------------------------------------------------- Reading a record

  function FieldsOf(r: R.Reader): Fields {
    Fields(r.user, r.challenge, r.mistyped)
  }

  /** The state looks at nothing: it is neither in a string nor before a value. */
  predicate Blind(m: Mode) {
    !(m.InString? || m.InEscape? || m.InUnicode? || BeforeSomething(m))
  }

  lemma BlindRead(r: R.Reader, c: char)
    requires Blind(r.sc.mode) || r.sc.mode.BeginKey? || r.sc.mode.BeginKeyOrEmpty?
             || (r.sc.mode.BeginValue? && Space(c))
    ensures R.Read(r, c) == r.(sc := Step(r.sc, c))
  {
    hide Step;
  }

  lemma BlindStays(s: Scanner, c: char)
    requires Blind(s.mode) && c !in "[]{}:,"
    ensures Blind(Step(s, c).mode) && Step(s, c).stack == s.stack
  {
  }

  lemma {:induction false} ReadFlat(r: R.Reader, b: Bytes)
    requires Blind(r.sc.mode) && Flat(b)
    ensures R.ReadAll(r, b) == r.(sc := Scan(r.sc, b))
    decreases |b|
  {
    if b != [] {
      BlindRead(r, b[0]);
      BlindStays(r.sc, b[0]);
      hide Step, R.Read, Blind;
      ReadFlat(r.(sc := Step(r.sc, b[0])), b[1..]);
    }
  }

  lemma {:induction false} ReadGap(r: R.Reader, gap: Bytes)
    requires (r.sc.mode.BeginValue? || r.sc.mode.BeginKey? || r.sc.mode.BeginKeyOrEmpty?) && IsGap(gap)
    ensures R.ReadAll(r, gap) == r
    decreases |gap|
  {
    if gap != [] {
      BlindRead(r, gap[0]);
      assert Step(r.sc, gap[0]) == r.sc;
      hide Step, R.Read;
      ReadGap(r, gap[1..]);
    }
  }

  /** White space after a value or a name, and the byte that follows. */
  lemma {:induction false} ReadAfter(r: R.Reader, gap: Bytes, c: char)
    requires Blind(r.sc.mode) && IsGap(gap)
    ensures R.ReadAll(r, gap + [c]) == r.(sc := Scan(r.sc, gap + [c]))
    decreases |gap|
  {
    var b := gap + [c];
    BlindRead(r, b[0]);
    if gap == [] {
      assert b[1..] == [];
    } else {
      BlindStays(r.sc, b[0]);
      assert b[1..] == gap[1..] + [c];
      hide Step, R.Read, Blind;
      ReadAfter(r.(sc := Step(r.sc, b[0])), gap[1..], c);
    }
  }

  lemma ReadUnit(r: R.Reader, u: Bytes)
    requires r.sc.mode.InString? && |r.sc.stack| == 1 && u != [] && IsUnit(u, |u|)
    ensures R.ReadAll(r, u) == r.(raw := r.raw + u)
  {
    hide *;
    if |u| == 2 {
      EscapeStep(r.sc, u);
      ReadShort(r, u);
    } else if |u| == 6 {
      EscapeStep(r.sc, u);
      HexInside(u);
      ReadLong(r, u);
    } else {
      PlainStep(r.sc, u);
      NotQuote(u);
      ReadPlain(r, u);
    }
  }

  lemma NotQuote(u: Bytes)
    requires u != [] && IsUnit(u, |u|)
    ensures u[0] != '"' && (|u| > 1 ==> u[0] == '\\')
  {
  }

  lemma ReadPlain(r: R.Reader, u: Bytes)
    requires r.sc.mode.InString? && |r.sc.stack| == 1 && |u| == 1 && u[0] != '"' && Step(r.sc, u[0]) == r.sc
    ensures R.ReadAll(r, u) == r.(raw := r.raw + u)
  {
    TextRead(r, u[0]);
    hide Step, R.Read, R.ReadAll;
    ReadFirst(r, u);
    ReadNone(r.(raw := r.raw + u));
    assert u[1..] == [] && u == [u[0]];
  }

  lemma ReadShort(r: R.Reader, u: Bytes)
    requires r.sc.mode.InString? && |r.sc.stack| == 1 && |u| == 2 && IsUnit(u, 2)
    requires Step(r.sc, u[0]) == r.sc.To(InEscape) && Step(r.sc.To(InEscape), u[1..][0]) == r.sc
    ensures R.ReadAll(r, u) == r.(raw := r.raw + u)
  {
    NotQuote(u);
    hide Step, R.Read, R.ReadAll, IsUnit;
    assert u[2..] == [] && u[..2] == u && r.sc.To(InString) == r.sc;
    ReadTwo(r, u, InString);
    ReadNone(r.(raw := r.raw + u));
  }

  lemma ReadLong(r: R.Reader, u: Bytes)
    requires r.sc.mode.InString? && |r.sc.stack| == 1 && |u| == 6 && IsUnit(u, 6)
    requires forall i | 0 <= i < 4 :: IsHexDigit(u[2..][i])
    requires Step(r.sc, u[0]) == r.sc.To(InEscape) && Step(r.sc.To(InEscape), u[1..][0]) == r.sc.To(InUnicode(4))
    ensures R.ReadAll(r, u) == r.(raw := r.raw + u)
  {
    NotQuote(u);
    Rejoin(r.raw, u, 2);
    assert r.sc.To(InUnicode(4)).To(InString) == r.sc;
    hide *;
    ReadTwo(r, u, InUnicode(4));
    ReadHex(r.(sc := r.sc.To(InUnicode(4)), raw := r.raw + u[..2]), u[2..], 4);
  }

  lemma HexInside(u: Bytes)
    requires |u| == 6 && IsUnit(u, 6)
    ensures forall i | 0 <= i < 4 :: IsHexDigit(u[2..][i])
  {
  }

  lemma ReadFirst(r: R.Reader, b: Bytes)
    requires b != []
    ensures R.ReadAll(r, b) == R.ReadAll(R.Read(r, b[0]), b[1..])
  {
  }

  lemma ReadNone(r: R.Reader)
    ensures R.ReadAll(r, []) == r
  {
  }

  /** A byte of a string. */
  lemma TextRead(r: R.Reader, c: char)
    requires |r.sc.stack| == 1 && r.sc.InText() && !(r.sc.mode.InString? && c == '"')
    ensures R.Read(r, c) == r.(sc := Step(r.sc, c), raw := r.raw + [c])
  {
    hide Step;
  }

  lemma ReadTwo(r: R.Reader, u: Bytes, m: Mode)
    requires r.sc.mode.InString? && |r.sc.stack| == 1 && |u| >= 2 && u[0] == '\\'
    requires Step(r.sc, u[0]) == r.sc.To(InEscape) && Step(r.sc.To(InEscape), u[1..][0]) == r.sc.To(m)
    ensures R.ReadAll(r, u) == R.ReadAll(r.(sc := r.sc.To(m), raw := r.raw + u[..2]), u[2..])
  {
    var q := r.(sc := r.sc.To(InEscape), raw := r.raw + [u[0]]);
    TextRead(r, u[0]);
    TextRead(q, u[1]);
    hide Step, R.Read, R.ReadAll;
    ReadFirst(r, u);
    ReadFirst(q, u[1..]);
    assert u[1..][1..] == u[2..] && r.raw + [u[0]] + [u[1]] == r.raw + u[..2];
  }

  lemma {:induction false} ReadHex(r: R.Reader, u: Bytes, left: nat)
    requires 1 <= left == |u| && r.sc.mode == InUnicode(left) && |r.sc.stack| == 1
    requires forall i | 0 <= i < left :: IsHexDigit(u[i])
    ensures R.ReadAll(r, u) == r.(sc := r.sc.To(InString), raw := r.raw + u)
    decreases left
  {
    var next := r.(sc := r.sc.To(if left == 1 then InString else InUnicode(left - 1)), raw := r.raw + [u[0]]);
    assert Step(r.sc, u[0]) == next.sc;
    hide Step;
    assert R.Read(r, u[0]) == next;
    assert r.raw + [u[0]] + u[1..] == r.raw + u;
    if left > 1 {
      ReadHex(next, u[1..], left - 1);
    } else {
      assert u[1..] == [] && next.raw == r.raw + u;
    }
  }

  lemma {:induction false} ReadBody(r: R.Reader, body: Bytes)
    requires r.sc.mode.InString? && |r.sc.stack| == 1 && IsBody(body)
    ensures R.ReadAll(r, body) == r.(raw := r.raw + body)
    decreases |body|
  {
    if body == [] {
      assert r.raw + body == r.raw;
    } else {
      var n := BodyUnit(body);
      hide *;
      ReadUnit(r, body[..n]);
      ReadBody(r.(raw := r.raw + body[..n]), body[n..]);
      R.ReadAppend(r, body[..n], body[n..]);
      Rejoin(r.raw, body, n);
    }
  }

  lemma Rejoin(raw: Bytes, body: Bytes, n: nat)
    requires n <= |body|
    ensures body == body[..n] + body[n..] && raw + body[..n] + body[n..] == raw + body
  {
    Grouped(raw, body[..n], body[n..]);
  }

  // ------------------------------------------------------------------------------- Members of a record

  /** The reader at a value of a member of the outermost object. */
  predicate AtMember(r: R.Reader) {
    r.sc == Scanner(BeginValue, [Context.Value]) && r.raw == []
  }

  /** The reader after it. */
  function AfterMemberRead(r: R.Reader, v: Value): R.Reader {
    var f := Taken(FieldsOf(r), r.key, v);
    r.(sc := EndOf(v, [Context.Value]), user := f.user, challenge := f.challenge, mistyped := f.mistyped)
  }

  lemma NamesKnown(key: Bytes)
    ensures R.Fold(key) == "USER" <==> IsNamed(key, "USER")
    ensures R.Fold(key) == "CHALLENGE" <==> IsNamed(key, "CHALLENGE")
    ensures R.Known(key) <==> IsNamed(key, "USER") || IsNamed(key, "CHALLENGE") || IsNamed(key, "AT")
  {
    FoldIs(key, "USER");
    FoldIs(key, "CHALLENGE");
    FoldIs(key, "AT");
    hide R.Fold, IsNamed;
  }

  lemma QuoteRead(r: R.Reader)
    requires AtMember(r)
    ensures R.Read(r, '"') == r.(sc := Scanner(InString, [Context.Value]))
  {
  }

  lemma CloseRead(r: R.Reader, body: Bytes)
    requires r.sc == Scanner(InString, [Context.Value]) && r.raw == body
    ensures var f := Taken(FieldsOf(r), r.key, Str(body));
            R.Read(r, '"') == r.(sc := Scanner(EndValue, [Context.Value]), raw := [], user := f.user,
                                 challenge := f.challenge, mistyped := f.mistyped)
  {
    NamesKnown(r.key);
    hide R.Fold, IsNamed, Unquote, R.Known;
  }

  lemma StringRead(r: R.Reader, body: Bytes)
    requires AtMember(r) && Proper(Str(body))
    ensures R.ReadAll(r, Text(Str(body))) == AfterMemberRead(r, Str(body))
  {
    var s := r.(sc := Scanner(InString, [Context.Value]));
    var q := AfterMemberRead(r, Str(body));
    ProperString(body);
    TextOfString(body);
    QuoteRead(r);
    CloseRead(s.(raw := body), body);
    StringGoes([Context.Value], body);
    hide Step, Scan, R.Read, R.ReadAll, IsBody, Text, Proper, EndOf, Taken, Goes;
    ReadOne(r, '"', s);
    ReadBody(s, body);
    assert [] + body == body && "\"" == ['"'];
    ReadOne(s.(raw := body), '"', q);
    ReadsOn(r, ['"'], s, body, s.(raw := body));
    ReadsOn(r, ['"'] + body, s.(raw := body), ['"'], q);
  }

  /** Any other value but null is of the wrong type for a field. */
  lemma OtherFirst(r: R.Reader, c: char)
    requires AtMember(r) && !Space(c) && c != '"'
    ensures R.Read(r, c) == r.(sc := Step(r.sc, c), mistyped := r.mistyped || (c != 'n' && R.Known(r.key)))
  {
    hide Step, R.Known;
  }

  lemma OtherTaken(r: R.Reader, v: Value, c: char)
    requires !v.Str? && (c == 'n' <==> v == Word("null"))
    ensures Taken(FieldsOf(r), r.key, v)
            == Fields(r.user, r.challenge, r.mistyped || (c != 'n' && R.Known(r.key)))
  {
    NamesKnown(r.key);
    hide R.Fold, IsNamed, R.Known;
  }

  lemma FlatRead(r: R.Reader, v: Value)
    requires AtMember(r) && Proper(v) && (v.Num? || v.Word?)
    ensures R.ReadAll(r, Text(v)) == AfterMemberRead(r, v)
  {
    var b := Text(v);
    FirstByte(v);
    OtherFirst(r, b[0]);
    OtherTaken(r, v, b[0]);
    var q := R.Read(r, b[0]);
    R.ReadScans(r, b);
    hide Step, Scan, R.Read, R.ReadAll, Text, Proper, EndOf, Taken, R.Known, Blind, Flat;
    ReadFirst(r, b);
    FlatRest(b);
    ReadFlat(q, b[1..]);
    ScanFirst(r.sc, b);
    EndIs(v, [Context.Value]);
  }

  lemma EndIs(v: Value, stack: seq<Context>)
    ensures EndOf(v, stack) == Scan(Scanner(BeginValue, stack), Text(v))
  {
  }

  lemma FirstByte(v: Value)
    requires Proper(v) && (v.Num? || v.Word?)
    ensures var b := Text(v);
            && b != [] && !Space(b[0]) && b[0] != '"' && (b[0] == 'n' <==> v == Word("null")) && Flat(b)
            && Blind(Step(Scanner(BeginValue, [Context.Value]), b[0]).mode)
  {
    TextStarts(v, []);
    NothingAfter(Text(v));
    if v.Num? {
      NumberFlat(v);
    } else {
      WordFlat(v);
    }
    hide Text, Flat;
  }

  lemma FlatRest(b: Bytes)
    requires Flat(b) && b != []
    ensures Flat(b[1..])
  {
  }

  lemma BracketRead(r: R.Reader, v: Value)
    requires AtMember(r) && Proper(v) && (v.Arr? || v.Obj? || v.EmptyArr? || v.EmptyObj?)
    ensures R.ReadAll(r, Text(v)) == AfterMemberRead(r, v)
  {
    var b := Text(v);
    var c := BracketStarts(v);
    OtherFirst(r, c);
    OtherTaken(r, v, c);
    var q := R.Read(r, c);
    hide Step, Scan, R.Read, R.ReadAll, Text, Proper, EndOf, Taken, R.Known, Deep;
    ReadFirst(r, b);
    ReadDeep(q, b[1..]);
    ScanFirst(r.sc, b);
    EndIs(v, [Context.Value]);
  }

  lemma BracketStarts(v: Value) returns (c: char)
    requires Proper(v) && (v.Arr? || v.Obj? || v.EmptyArr? || v.EmptyObj?)
    ensures var b, s := Text(v), Scanner(BeginValue, [Context.Value]);
            b != [] && b[0] == c && (c == '[' || c == '{') && Deep(Step(s, c), b[1..], 2)
  {
    c := if v.Arr? || v.EmptyArr? then '[' else '{';
    assert [Context.Value] + [Element] == [Context.Value, Element];
    assert [Context.Value] + [Context.Key] == [Context.Value, Context.Key];
    hide Scan, Deep, Goes;
    match v
    case Arr(items) =>
      FullArray(items);
      ItemsGoes(items, [Context.Value]);
      FirstItem(items, [Context.Value]);
      BracketDeep(c, ItemsText(items), "]", Closed([Context.Value]));
    case Obj(members) =>
      FullObject(members);
      MembersGoes(members, [Context.Value]);
      FirstMember(members, [Context.Value]);
      BracketDeep(c, MembersText(members), "}", Closed([Context.Value]));
    case EmptyArr(gap) =>
      EmptyArray(gap);
      EmptyDeep(c, gap, "]");
      BracketDeep(c, gap, "]", Closed([Context.Value]));
    case EmptyObj(gap) =>
      EmptyObject(gap);
      EmptyDeep(c, gap, "}");
      BracketDeep(c, gap, "}", Closed([Context.Value]));
  }

  function Inner(c: char): Scanner {
    if c == '[' then Scanner(BeginValueOrEmpty, [Context.Value, Element])
    else Scanner(BeginKeyOrEmpty, [Context.Value, Context.Key])
  }

  lemma BracketDeep(c: char, inner: Bytes, close: Bytes, end: Scanner)
    requires (c == '[' || c == '{') && Goes(Inner(c), inner + close, end, 2)
    ensures var b := [c] + inner + close;
            b != [] && b[0] == c && Deep(Step(Scanner(BeginValue, [Context.Value]), c), b[1..], 2)
  {
    hide Scan, Deep;
    assert ([c] + inner + close)[1..] == inner + close;
    assert Step(Scanner(BeginValue, [Context.Value]), c) == Inner(c);
  }

  lemma EmptyDeep(c: char, gap: Bytes, close: Bytes)
    requires (c == '[' && close == "]") || (c == '{' && close == "}")
    requires IsGap(gap)
    ensures Goes(Inner(c), gap + close, Closed([Context.Value]), 2)
  {
    OpensAt([Context.Value]);
    assert [Context.Value] + [Element] == [Context.Value, Element];
    assert [Context.Value] + [Context.Key] == [Context.Value, Context.Key];
    hide Step, Scan, Deep, Goes, IsGap, Closed;
    GapGoes(Inner(c), gap);
    GoesOne(Inner(c), close[0], Closed([Context.Value]), 2);
    assert [close[0]] == close;
    GoesOn(Inner(c), gap, Inner(c), close, Closed([Context.Value]), 2);
  }

  lemma ValueRead(r: R.Reader, v: Value)
    requires AtMember(r) && Proper(v)
    ensures R.ReadAll(r, Text(v)) == AfterMemberRead(r, v)
  {
    hide *;
    match v
    case Str(body) =>
      StringRead(r, body);
    case Num(_, _, _, _) =>
      FlatRead(r, v);
    case Word(_) =>
      FlatRead(r, v);
    case _ =>
      BracketRead(r, v);
  }

  lemma OpenKeyRead(r: R.Reader)
    requires r.sc.stack == [Context.Key] && (r.sc.mode.BeginKey? || r.sc.mode.BeginKeyOrEmpty?)
    ensures R.Read(r, '"') == r.(sc := Scanner(InString, [Context.Key]))
  {
  }

  lemma CloseKeyRead(r: R.Reader)
    requires r.sc == Scanner(InString, [Context.Key])
    ensures R.Read(r, '"') == r.(sc := Scanner(EndValue, [Context.Key]), key := Unquote(r.raw), raw := [])
  {
    hide Unquote;
  }

  lemma ColonLeads(left: Bytes)
    requires IsGap(left)
    ensures Scan(Scanner(EndValue, [Context.Key]), left + [':']) == Scanner(BeginValue, [Context.Value])
  {
    var empty: seq<Context> := [];
    assert empty + [Context.Key] == [Context.Key] && empty + [Context.Value] == [Context.Value];
    hide Scan, Deep, IsGap, AfterValue, Ended;
    EndedAt([Context.Key], []);
    AfterGoes(Scanner(EndValue, [Context.Key]), [Context.Key], left, ':');
    AfterName(empty, ':');
  }

  /** A name and its colon. */
  lemma NameRead(r: R.Reader, key: Bytes, left: Bytes, right: Bytes)
    requires r.sc.stack == [Context.Key] && (r.sc.mode.BeginKey? || r.sc.mode.BeginKeyOrEmpty?) && r.raw == []
    requires IsBody(key) && IsGap(left) && IsGap(right)
    ensures var q := r.(sc := Scanner(BeginValue, [Context.Value]), key := Unquote(key));
            R.ReadAll(r, ['"'] + key + ['"'] + (left + [':']) + right) == q && AtMember(q)
  {
    var a := r.(sc := Scanner(InString, [Context.Key]));
    var b := a.(raw := key);
    var c := r.(sc := Scanner(EndValue, [Context.Key]), key := Unquote(key));
    var d := r.(sc := Scanner(BeginValue, [Context.Value]), key := Unquote(key));
    OpenKeyRead(r);
    CloseKeyRead(b);
    ColonLeads(left);
    assert Blind(c.sc.mode);
    hide Step, Scan, R.Read, R.ReadAll, IsBody, IsGap, Unquote, Blind;
    ReadOne(r, '"', a);
    ReadBody(a, key);
    assert [] + key == key;
    ReadOne(b, '"', c);
    ReadAfter(c, left, ':');
    ReadGap(d, right);
    ReadsOn(r, ['"'], a, key, b);
    ReadsOn(r, ['"'] + key, b, ['"'], c);
    ReadsOn(r, ['"'] + key + ['"'], c, left + [':'], d);
    ReadsOn(r, ['"'] + key + ['"'] + (left + [':']), d, right, d);
  }

  lemma ReadOne(r: R.Reader, c: char, q: R.Reader)
    requires R.Read(r, c) == q
    ensures R.ReadAll(r, [c]) == q
  {
    hide R.Read, R.ReadAll;
    ReadFirst(r, [c]);
    assert [c][1..] == [];
    ReadNone(q);
  }

  lemma ReadsOn(r: R.Reader, a: Bytes, m: R.Reader, b: Bytes, q: R.Reader)
    requires R.ReadAll(r, a) == m && R.ReadAll(m, b) == q
    ensures R.ReadAll(r, a + b) == q
  {
    hide R.ReadAll;
    R.ReadAppend(r, a, b);
  }

  lemma EndedBlind(t: Scanner, stack: seq<Context>)
    requires Ended(t, stack, []) && stack != []
    ensures Blind(t.mode)
  {
  }

  lemma MemberLeads(v: Value, after: Bytes, c: char)
    requires Proper(v) && IsGap(after) && (c == ',' || c == '}')
    ensures Scan(EndOf(v, [Context.Value]), after + [c])
            == if c == ',' then Scanner(BeginKey, [Context.Key]) else Closed([])
    ensures Blind(EndOf(v, [Context.Value]).mode)
  {
    var empty: seq<Context> := [];
    assert empty + [Context.Key] == [Context.Key] && empty + [Context.Value] == [Context.Value];
    hide Scan, Deep, IsGap, AfterValue, Ended, Proper, EndOf, Closed, Blind;
    EndedThere(v, [Context.Value]);
    EndedBlind(EndOf(v, [Context.Value]), [Context.Value]);
    AfterGoes(EndOf(v, [Context.Value]), [Context.Value], after, c);
    AfterMember(empty, c);
  }

  /** A member, from its name on, and the byte that follows it. */
  lemma MemberRead(r: R.Reader, key: Bytes, left: Bytes, right: Bytes, v: Value, after: Bytes, c: char)
    requires r.sc.stack == [Context.Key] && (r.sc.mode.BeginKey? || r.sc.mode.BeginKeyOrEmpty?) && r.raw == []
    requires IsBody(key) && IsGap(left) && IsGap(right) && Proper(v) && IsGap(after) && (c == ',' || c == '}')
    ensures var b := ['"'] + key + ['"'] + (left + [':']) + right + Text(v) + (after + [c]);
            var q := R.ReadAll(r, b);
            && FieldsOf(q) == Taken(FieldsOf(r), Unquote(key), v) && q.raw == []
            && q.sc == if c == ',' then Scanner(BeginKey, [Context.Key]) else Closed([])
  {
    var d := r.(sc := Scanner(BeginValue, [Context.Value]), key := Unquote(key));
    var e := AfterMemberRead(d, v);
    hide Step, Scan, R.Read, R.ReadAll, IsBody, IsGap, Unquote, Blind, Taken, Text, Proper, EndOf, Closed;
    NameRead(r, key, left, right);
    ValueRead(d, v);
    MemberLeads(v, after, c);
    ReadAfter(e, after, c);
    var front := ['"'] + key + ['"'] + (left + [':']) + right;
    ReadsOn(r, front, d, Text(v), e);
    ReadsOn(r, front + Text(v), e, after + [c], R.ReadAll(e, after + [c]));
  }

  lemma {:induction false} MembersRead(r: R.Reader, members: Members)
    requires r.sc.stack == [Context.Key] && (r.sc.mode.BeginKey? || r.sc.mode.BeginKeyOrEmpty?) && r.raw == []
    requires members.Member? && ProperMembers(members)
    ensures var q := R.ReadAll(r, MembersText(members) + "}");
            FieldsOf(q) == AllTaken(FieldsOf(r), members) && q.sc == Closed([])
    decreases members
  {
    var Member(before, key, left, right, v, after, more) := members;
    var c := if more.Member? then ',' else '}';
    var b := ['"'] + key + ['"'] + (left + [':']) + right + Text(v) + (after + [c]);
    var q := R.ReadAll(r, b);
    MemberShape(members);
    hide Step, Scan, R.Read, R.ReadAll, IsBody, IsGap, Unquote, Taken, Text, Proper, Closed, MembersText;
    ReadGap(r, before);
    MemberRead(r, key, left, right, v, after, c);
    ReadsOn(r, before, r, b, q);
    if more.Member? {
      MembersRead(q, more);
      ReadsOn(r, before + b, q, MembersText(more) + "}", R.ReadAll(q, MembersText(more) + "}"));
    }
  }

  lemma MemberShape(members: Members)
    requires members.Member?
    ensures var Member(before, key, left, right, v, after, more) := members;
            var c := if more.Member? then ',' else '}';
            var b := ['"'] + key + ['"'] + (left + [':']) + right + Text(v) + (after + [c]);
            MembersText(members) + "}" == if more.Member? then before + b + (MembersText(more) + "}") else before + b
  {
    var Member(before, key, left, right, v, after, more) := members;
    var front := before + "\"" + key + "\"" + left + ":" + right;
    MembersTextIs(members);
    hide MembersText, Text;
    ItemJoined(front, Text(v), after, if more.Member? then MembersText(more) else "", more.Member?, "}");
    var c := if more.Member? then ',' else '}';
    FrontIs(before, key, left, right, Text(v), after + [c]);
  }

  lemma FrontIs(before: Bytes, key: Bytes, left: Bytes, right: Bytes, text: Bytes, end: Bytes)
    ensures before + "\"" + key + "\"" + left + ":" + right + text + end
            == before + (['"'] + key + ['"'] + (left + [':']) + right + text + end)
  {
    assert "\"" == ['"'] && ":" == [':'];
    var inner := ['"'] + key + ['"'] + left + [':'] + right;
    assert before + "\"" + key + "\"" + left + ":" + right == before + inner;
    assert ['"'] + key + ['"'] + (left + [':']) + right == inner;
    assert before + inner + text + end == before + (inner + text + end);
  }

  // ------------------------------------------------------------------------------- Whole lines

  /** Outside all brackets nothing is picked up. */
  lemma {:induction false} ReadOutside(r: R.Reader, gap: Bytes)
    requires r.sc.stack == [] && (r.sc.mode.BeginValue? || r.sc.mode.EndTop?) && IsGap(gap)
    ensures R.ReadAll(r, gap) == r
    decreases |gap|
  {
    if gap != [] {
      assert Step(r.sc, gap[0]) == r.sc;
      hide Step;
      assert R.Read(r, gap[0]) == r;
      ReadOutside(r, gap[1..]);
    }
  }

  lemma OpenRead()
    ensures R.Read(R.FRESH, '{') == R.FRESH.(sc := Scanner(BeginKeyOrEmpty, [Context.Key]))
  {
    var empty: seq<Context> := [];
    assert empty + [Context.Key] == [Context.Key];
  }

  /** An object. */
  lemma ObjectRead(before: Bytes, members: Members, after: Bytes)
    requires IsGap(before) && IsGap(after) && Proper(Obj(members))
    ensures var q := R.ReadAll(R.FRESH, before + Text(Obj(members)) + after);
            FieldsOf(q) == AllTaken(Fields("", "", false), members) && q.sc == Closed([])
  {
    var r := R.FRESH;
    var o := r.(sc := Scanner(BeginKeyOrEmpty, [Context.Key]));
    var inner := MembersText(members) + "}";
    var q := R.ReadAll(o, inner);
    FullObject(members);
    OpenRead();
    StartIs();
    hide Step, R.Read, R.ReadAll, IsGap, AllTaken, Text, Proper, MembersText, ProperMembers;
    ReadOutside(r, before);
    ReadOne(r, '{', o);
    MembersRead(o, members);
    ReadOutside(q, after);
    ReadsOn(r, before, r, ['{'], o);
    ReadsOn(r, before + ['{'], o, inner, q);
    ReadsOn(r, before + ['{'] + inner, q, after, q);
    ObjectShape(before, MembersText(members), after);
  }

  lemma ObjectShape(before: Bytes, members: Bytes, after: Bytes)
    ensures before + ("{" + members + "}") + after == before + ['{'] + (members + "}") + after
  {
    assert "{" == ['{'];
    Grouped("{", members, "}");
    Grouped(before, ['{'], members + "}");
  }

  /** The states of a line that is no object: in an array, or in or after a value without brackets. */
  predicate Elsewhere(s: Scanner) {
    if s.stack == [] then !BeforeSomething(s.mode) else s.stack[0].Element?
  }

  lemma ElsewhereStays(s: Scanner, c: char)
    requires Elsewhere(s)
    ensures Elsewhere(Step(s, c))
  {
  }

  lemma {:induction false} ReadElsewhere(r: R.Reader, b: Bytes)
    requires Elsewhere(r.sc)
    ensures FieldsOf(R.ReadAll(r, b)) == FieldsOf(r)
    decreases |b|
  {
    if b != [] {
      ElsewhereStays(r.sc, b[0]);
      ElsewhereRead(r, b[0]);
      hide Step, R.Read, Elsewhere, FieldsOf;
      R.ReadScans(r, b[..1]);
      ReadElsewhere(R.Read(r, b[0]), b[1..]);
    }
  }

  lemma ElsewhereRead(r: R.Reader, c: char)
    requires Elsewhere(r.sc)
    ensures FieldsOf(R.Read(r, c)) == FieldsOf(r) && R.Read(r, c).sc == Step(r.sc, c)
  {
    hide Step, R.Store, R.Known, Unquote;
  }

  lemma FreshRead(c: char)
    requires !Space(c) && c != '{'
    ensures Elsewhere(R.Read(R.FRESH, c).sc) && FieldsOf(R.Read(R.FRESH, c)) == FieldsOf(R.FRESH)
  {
  }

  /** A value that is no object. */
  lemma OtherRead(before: Bytes, v: Value, after: Bytes)
    requires IsGap(before) && Proper(v) && !v.Obj? && !v.EmptyObj?
    ensures FieldsOf(R.ReadAll(R.FRESH, before + Text(v) + after)) == FieldsOf(R.FRESH)
  {
    var r, b := R.FRESH, Text(v) + after;
    OtherStarts(v, after);
    FreshRead(b[0]);
    StartIs();
    var q := R.Read(r, b[0]);
    hide Step, R.Read, R.ReadAll, IsGap, Text, Proper, FieldsOf, Elsewhere;
    ReadOutside(r, before);
    ReadFirst(r, b);
    ReadElsewhere(q, b[1..]);
    ReadsOn(r, before, r, b, R.ReadAll(q, b[1..]));
    Grouped(before, Text(v), after);
  }

  lemma OtherStarts(v: Value, after: Bytes)
    requires Proper(v) && !v.Obj? && !v.EmptyObj?
    ensures var b := Text(v) + after; b != [] && !Space(b[0]) && b[0] != '{'
  {
    match v
    case Str(body) =>
      StringText(body, after);
    case Num(_, _, _, _) =>
      TextStarts(v, after);
    case Word(_) =>
      TextStarts(v, after);
    case EmptyArr(gap) =>
      EmptyArray(gap);
    case Arr(items) =>
      FullArray(items);
      hide ItemsText, Text;
  }

  /** An object without members. */
  lemma NothingRead(before: Bytes, gap: Bytes, after: Bytes)
    requires IsGap(before) && IsGap(gap) && IsGap(after)
    ensures FieldsOf(R.ReadAll(R.FRESH, before + Text(EmptyObj(gap)) + after)) == FieldsOf(R.FRESH)
  {
    var r := R.FRESH;
    var o, q := r.(sc := Scanner(BeginKeyOrEmpty, [Context.Key])), r.(sc := Closed([]));
    OpenRead();
    StartIs();
    EmptyObject(gap);
    assert R.Read(o, '}') == q;
    hide Step, R.Read, R.ReadAll, IsGap, Text;
    ReadOutside(r, before);
    ReadOne(r, '{', o);
    ReadGap(o, gap);
    ReadOne(o, '}', q);
    ReadOutside(q, after);
    ReadsOn(r, before, r, ['{'], o);
    ReadsOn(r, before + ['{'], o, gap, o);
    ReadsOn(r, before + ['{'] + gap, o, ['}'], q);
    ReadsOn(r, before + ['{'] + gap + ['}'], q, after, q);
    ObjectShape(before, gap, after);
    assert "}" == ['}'] && before + ['{'] + (gap + ['}']) == before + ['{'] + gap + ['}'];
  }

  /** What replay makes of a line: the solve of the object it is, if it is one. */
  lemma LineMeans(line: Bytes, p: R.Pair)
    ensures R.Decode(line) == Some(p) <==>
            exists before, members, after ::
              && IsGap(before) && IsGap(after) && Proper(Obj(members)) && line == before + Text(Obj(members)) + after
              && SolveOf(members) == Some(p)
  {
    if R.Decode(line).Some? {
      var before, members, after := LineObject(line);
      ObjectSolve(before, members, after);
    }
    forall before, members, after |
      && IsGap(before) && IsGap(after) && Proper(Obj(members)) && line == before + Text(Obj(members)) + after
      && SolveOf(members) == Some(p)
      ensures R.Decode(line) == Some(p)
    {
      ObjectSolve(before, members, after);
    }
  }

  lemma ObjectSolve(before: Bytes, members: Members, after: Bytes)
    requires IsGap(before) && IsGap(after) && Proper(Obj(members))
    ensures R.Decode(before + Text(Obj(members)) + after) == SolveOf(members)
  {
    ObjectRead(before, members, after);
    hide R.ReadAll, Text, Proper, IsGap, AllTaken;
  }

  lemma LineObject(line: Bytes) returns (before: Bytes, members: Members, after: Bytes)
    requires R.Decode(line).Some?
    ensures IsGap(before) && IsGap(after) && Proper(Obj(members)) && line == before + Text(Obj(members)) + after
  {
    DecodeReads(line);
    R.ReadScans(R.FRESH, line);
    StartIs();
    hide R.Decode, R.ReadAll, Scan, Complete, Text, Proper, IsGap;
    var v, left, right := CompleteParses(line);
    before, after := left, right;
    members := if v.Obj? then v.members else NoMembers;
    if v.EmptyObj? {
      EmptyObject(v.gap);
      NothingRead(before, v.gap, after);
    } else if !v.Obj? {
      OtherRead(before, v, after);
    }
  }

  lemma DecodeReads(line: Bytes)
    requires R.Decode(line).Some?
    ensures var q := R.ReadAll(R.FRESH, line); Complete(q.sc) && FieldsOf(q).user != "" && R.FRESH.sc == START
    ensures FieldsOf(R.FRESH).user == ""
  {
    hide R.ReadAll, Complete;
  }
}
