/** The values of Connection and Transfer-Encoding headers (sections 6.1 and 3.3.1 of RFC 7230): which words of
    a comma-separated list the matcher finds. */
module HttpLists {
  import opened Ascii
  import opened HttpTypes
  import opened HttpTrans

  /** What the matcher has made of the bytes so far. */
  datatype Held = Held(matcher: Matcher, index: nat, flags: Flags)

  /** The matchers that can be met inside the value of a list. */
  predicate IsListMatcher(m: Matcher) {
    m.General? || m.TeTokenStart? || m.TeMatchingChunked? || m.TeToken? || m.TeChunked?
    || m.ConnTokenStart? || m.ConnMatchingKeepAlive? || m.ConnMatchingClose? || m.ConnMatchingUpgrade? || m.ConnToken?
    || m.ConnKeepAlive? || m.ConnClose? || m.ConnUpgrade?
  }

  /** The flag of a word that has just ended. */
  function WithWord(m: Matcher, f: Flags): Flags {
    match m
    case ConnKeepAlive => f.(keepAlive := true)
    case ConnClose => f.(close := true)
    case ConnUpgrade => f.(connUpgrade := true)
    case _ => f
  }

  /** The first byte of the value of a Transfer-Encoding (`coding`) or Connection header. */
  function Begun(coding: bool, f: Flags, ch: Byte): Held {
    Held(if coding then if Lower(ch) == 99 then TeMatchingChunked else TeToken else ConnTokenFirst(Lower(ch), ConnToken), 0, f)
  }

  /** Any other byte. */
  function NextHeld(h: Held, ch: Byte): Held {
    var r := ListChar(h.matcher, h.index, ch);
    Held(r.matcher, r.index, if ch == COMMA then WithWord(h.matcher, h.flags) else h.flags)
  }

  function Feed(h: Held, s: seq<Byte>): Held {
    if s == [] then h else NextHeld(Feed(h, s[..|s| - 1]), s[|s| - 1])
  }

  function ValueHeld(coding: bool, f: Flags, v: seq<Byte>): Held
    requires v != []
  {
    Feed(Begun(coding, f, v[0]), v[1..])
  }

  /** The flags after a Connection header. */
  function ListFlags(f: Flags, v: seq<Byte>): Flags {
    if v == [] then f else WithWord(ValueHeld(false, f, v).matcher, ValueHeld(false, f, v).flags)
  }

  /** A Transfer-Encoding whose last coding is found to be "chunked". */
  predicate EndsChunked(v: seq<Byte>) { v != [] && ValueHeld(true, NO_FLAGS, v).matcher.TeChunked? }

  lemma {:induction false} ListMatcherKept(m: Matcher, index: nat, ch: Byte)
    requires IsListMatcher(m)
    ensures IsListMatcher(ListChar(m, index, ch).matcher)
  {
    hide Literal, IsAt;
  }

  lemma {:induction false} FeedKeeps(h: Held, s: seq<Byte>)
    requires IsListMatcher(h.matcher)
    ensures IsListMatcher(Feed(h, s).matcher)
  {
    hide ListChar, IsListMatcher;
    if s != [] {
      FeedKeeps(h, s[..|s| - 1]);
      var g := Feed(h, s[..|s| - 1]);
      ListMatcherKept(g.matcher, g.index, s[|s| - 1]);
    }
  }

  lemma {:induction false} FeedConcat(h: Held, a: seq<Byte>, b: seq<Byte>)
    ensures Feed(h, a + b) == Feed(Feed(h, a), b)
    decreases |b|
  {
    hide NextHeld;
    if b == [] {
      assert a + b == a;
    } else {
      var k := |b| - 1;
      assert (a + b)[..|a + b| - 1] == a + b[..k];
      FeedConcat(h, a, b[..k]);
    }
  }

  // ---------- flags found do not depend on those set before ----------

  function Union(f: Flags, g: Flags): Flags {
    f.(keepAlive := f.keepAlive || g.keepAlive, close := f.close || g.close, connUpgrade := f.connUpgrade || g.connUpgrade)
  }

  lemma WithWordUnion(m: Matcher, f: Flags, g: Flags)
    ensures WithWord(m, Union(f, g)) == Union(f, WithWord(m, g))
  {
  }

  lemma {:induction false} FeedUnion(f: Flags, h: Held, s: seq<Byte>)
    ensures Feed(h.(flags := Union(f, h.flags)), s) == Feed(h, s).(flags := Union(f, Feed(h, s).flags))
  {
    hide ListChar, Union, WithWord;
    if s != [] {
      FeedUnion(f, h, s[..|s| - 1]);
      var g := Feed(h, s[..|s| - 1]);
      WithWordUnion(g.matcher, f, g.flags);
    }
  }

  /** A Connection header adds the words found in its value. */
  lemma {:induction false} ListFlagsUnion(f: Flags, v: seq<Byte>)
    ensures ListFlags(f, v) == Union(f, ListFlags(NO_FLAGS, v))
  {
    hide Feed;
    if v != [] {
      var h := Begun(false, NO_FLAGS, v[0]);
      FeedUnion(f, h, v[1..]);
      assert Union(f, NO_FLAGS) == f;
      var g := Feed(h, v[1..]);
      WithWordUnion(g.matcher, f, g.flags);
    }
  }

  /** Each kind of list keeps to its own matchers. */
  predicate OfKind(coding: bool, m: Matcher) {
    m.General? || (if coding then m.TeTokenStart? || m.TeMatchingChunked? || m.TeToken? || m.TeChunked?
                   else m.ConnTokenStart? || m.ConnMatchingKeepAlive? || m.ConnMatchingClose? || m.ConnMatchingUpgrade?
                        || m.ConnToken? || m.ConnKeepAlive? || m.ConnClose? || m.ConnUpgrade?)
  }

  lemma {:induction false} KindKept(coding: bool, m: Matcher, index: nat, ch: Byte, f: Flags)
    requires OfKind(coding, m)
    ensures OfKind(coding, ListChar(m, index, ch).matcher) && (coding ==> WithWord(m, f) == f)
  {
    hide Literal, IsAt;
  }

  lemma {:induction false} FeedKind(coding: bool, h: Held, s: seq<Byte>)
    requires OfKind(coding, h.matcher)
    ensures OfKind(coding, Feed(h, s).matcher) && (coding ==> Feed(h, s).flags == h.flags)
  {
    hide ListChar, OfKind, WithWord;
    if s != [] {
      var k := |s| - 1;
      FeedKind(coding, h, s[..k]);
      var g := Feed(h, s[..k]);
      KindKept(coding, g.matcher, g.index, s[k], g.flags);
    }
  }

  /** A Transfer-Encoding sets no flag of a Connection, and neither depends on the flags set before. */
  lemma {:induction false} ValueKind(coding: bool, f: Flags, v: seq<Byte>)
    requires v != []
    ensures OfKind(coding, ValueHeld(coding, f, v).matcher)
    ensures coding ==> ValueHeld(coding, f, v).flags == f && (ValueHeld(coding, f, v).matcher.TeChunked? <==> EndsChunked(v))
  {
    hide Feed, Union;
    FeedKind(coding, Begun(coding, f, v[0]), v[1..]);
    FeedUnion(f, Begun(coding, NO_FLAGS, v[0]), v[1..]);
    UnionNone(f);
  }

  lemma UnionNone(f: Flags)
    ensures Union(f, NO_FLAGS) == f
  {
  }

  // ---------- lists of words ----------

  datatype Word = KeepAlive | Close | Upgrading | Chunked

  function Spelling(w: Word): (s: string)
    ensures |s| > 1
  {
    match w case KeepAlive => "keep-alive" case Close => "close" case Upgrading => "upgrade" case Chunked => "chunked"
  }

  function Reading(w: Word): Matcher {
    match w
    case KeepAlive => ConnMatchingKeepAlive case Close => ConnMatchingClose
    case Upgrading => ConnMatchingUpgrade case Chunked => TeMatchingChunked
  }

  function Done(w: Word): Matcher {
    match w case KeepAlive => ConnKeepAlive case Close => ConnClose case Upgrading => ConnUpgrade case Chunked => TeChunked
  }

  /** `s` begins the word, in any case. */
  predicate Begins(w: Word, s: seq<Byte>) {
    0 < |s| <= |Spelling(w)| && forall i :: 0 <= i < |s| ==> IsAt(Spelling(w), i, Lower(s[i]))
  }

  predicate IsWord(w: Word, s: seq<Byte>) { Begins(w, s) && |s| == |Spelling(w)| }

  function Start(coding: bool): Matcher { if coding then TeTokenStart else ConnTokenStart }
  function Other(coding: bool): Matcher { if coding then TeToken else ConnToken }

  /** What the matcher stands for after the bytes `s` of an element it looks at. */
  predicate Stands(coding: bool, s: seq<Byte>, m: Matcher, index: nat) {
    (forall w: Word :: w.Chunked? == coding && Begins(w, s) ==> index == |s| - 1 && m == if IsWord(w, s) then Done(w) else Reading(w))
    && ((forall w: Word :: w.Chunked? == coding ==> !Begins(w, s)) ==> m == Other(coding))
  }

  lemma {:induction false} BeginsMore(w: Word, s: seq<Byte>, c: Byte)
    requires s != []
    ensures Begins(w, s + [c]) <==> Begins(w, s) && IsAt(Spelling(w), |s|, Lower(c))
  {
    hide Spelling, Lower;
    var t := s + [c];
    if Begins(w, t) {
      forall i | 0 <= i < |s| ensures IsAt(Spelling(w), i, Lower(s[i])) {
        assert t[i] == s[i];
      }
      assert t[|s|] == c;
    }
  }

  lemma {:induction false} BeginsOnce(w: Word, v: Word, s: seq<Byte>)
    requires Begins(w, s) && Begins(v, s) && (w.Chunked? <==> v.Chunked?)
    ensures w == v
  {
    assert IsAt(Spelling(w), 0, Lower(s[0])) && IsAt(Spelling(v), 0, Lower(s[0]));
  }

  lemma {:induction false} FirstStands(coding: bool, w: Word, c: Byte)
    requires w.Chunked? == coding
    ensures Begins(w, [c]) <==> IsAt(Spelling(w), 0, Lower(c))
    ensures Token(Lower(c)) != 0 ==> (ListChar(Start(coding), 0, c).matcher == Reading(w) <==> Begins(w, [c]))
  {
    assert [c][0] == c;
  }

  lemma {:induction false} FirstOther(coding: bool, c: Byte)
    requires Token(Lower(c)) != 0
    ensures ListChar(Start(coding), 0, c).index == 0
    ensures ListChar(Start(coding), 0, c).matcher == Other(coding)
         || exists w: Word :: w.Chunked? == coding && ListChar(Start(coding), 0, c).matcher == Reading(w)
  {
    var m := ListChar(Start(coding), 0, c).matcher;
    if m.ConnMatchingKeepAlive? {
      assert m == Reading(KeepAlive);
    } else if m.ConnMatchingClose? {
      assert m == Reading(Close);
    } else if m.ConnMatchingUpgrade? {
      assert m == Reading(Upgrading);
    } else if m.TeMatchingChunked? {
      assert m == Reading(Chunked);
    }
  }

  /** The first byte of an element. */
  lemma {:induction false} ElementStarts(coding: bool, c: Byte)
    requires Token(Lower(c)) != 0
    ensures var r := ListChar(Start(coding), 0, c); Stands(coding, [c], r.matcher, r.index)
  {
    hide ListChar, Begins, Spelling;
    var r := ListChar(Start(coding), 0, c);
    FirstOther(coding, c);
    forall w: Word | w.Chunked? == coding
      ensures Begins(w, [c]) <==> r.matcher == Reading(w)
      ensures !IsWord(w, [c])
    {
      FirstStands(coding, w, c);
      LongerThanOne(w);
    }
  }

  lemma LongerThanOne(w: Word)
    ensures |Spelling(w)| > 1
  {
  }

  lemma {:induction false} WordGoesOn(w: Word, index: nat, c: Byte)
    ensures ListChar(Reading(w), index, c) ==
              Cursor(Match(Spelling(w), index + 1, Lower(c), Reading(w), Done(w), Other(w.Chunked?)), index + 1)
  {
  }

  lemma {:induction false} OtherGoesOn(coding: bool, index: nat, c: Byte)
    ensures c != COMMA ==> ListChar(Other(coding), index, c) == Cursor(Other(coding), index)
    ensures c == COMMA ==> ListChar(Other(coding), index, c) == Cursor(Start(coding), 0)
  {
  }

  lemma {:induction false} WordEnds(w: Word, index: nat, c: Byte)
    ensures c == SP ==> ListChar(Done(w), index, c) == Cursor(Done(w), index)
    ensures c != SP && c != COMMA ==> ListChar(Done(w), index, c) == Cursor(Other(w.Chunked?), index)
    ensures c == COMMA ==>
              ListChar(Done(w), index, c) == if w.Chunked? then Cursor(TeToken, index) else Cursor(ConnTokenStart, 0)
  {
  }

  /** Any other byte of the word of an element. */
  lemma {:induction false} ElementGoesOn(coding: bool, s: seq<Byte>, m: Matcher, index: nat, c: Byte)
    requires s != [] && Stands(coding, s, m, index) && c != COMMA && c != SP
    ensures var r := ListChar(m, index, c); Stands(coding, s + [c], r.matcher, r.index)
  {
    hide ListChar, Begins, Spelling, Lower;
    var t := s + [c];
    var r := ListChar(m, index, c);
    if w: Word :| w.Chunked? == coding && Begins(w, s) {
      BeginsMore(w, s, c);
      forall v: Word | v.Chunked? == coding && Begins(v, t) ensures v == w {
        BeginsMore(v, s, c);
        BeginsOnce(v, w, s);
      }
      BeginsSize(w, s);
      if IsWord(w, s) {
        WordEnds(w, index, c);
        NotBeyond(w, |s|, Lower(c));
      } else {
        WordGoesOn(w, index, c);
      }
    } else {
      OtherGoesOn(coding, index, c);
      forall v: Word | v.Chunked? == coding ensures !Begins(v, t) {
        BeginsMore(v, s, c);
      }
    }
  }

  lemma BeginsSize(w: Word, s: seq<Byte>)
    requires Begins(w, s)
    ensures 0 < |s| <= |Spelling(w)|
  {
  }

  lemma NotBeyond(w: Word, i: nat, c: Byte)
    requires i >= |Spelling(w)|
    ensures !IsAt(Spelling(w), i, c)
  {
  }

  // ---------- elements ----------

  /** Spaces, a token, spaces. The lower-casing of the source makes a tab look like a parenthesis and an
      underscore like a control character, so neither may stand where a token is to start. */
  datatype Item = Item(lead: seq<Byte>, word: seq<Byte>, trail: seq<Byte>)

  predicate Spaces(s: seq<Byte>) { forall i :: 0 <= i < |s| ==> s[i] == SP }

  predicate IsElement(s: seq<Byte>) {
    s != [] && (forall i :: 0 <= i < |s| ==> Token(s[i]) != 0) && Token(Lower(s[0])) != 0
  }

  predicate IsItem(x: Item) { Spaces(x.lead) && IsElement(x.word) && Spaces(x.trail) }

  function ItemText(x: Item): seq<Byte> { x.lead + x.word + x.trail }

  lemma {:induction false} LeadRead(coding: bool, f: Flags, s: seq<Byte>)
    requires Spaces(s)
    ensures Feed(Held(Start(coding), 0, f), s) == Held(Start(coding), 0, f)
  {
    if s != [] {
      LeadRead(coding, f, s[..|s| - 1]);
      SpaceStays(coding);
    }
  }

  lemma SpaceStays(coding: bool)
    ensures ListChar(Start(coding), 0, SP) == Cursor(Start(coding), 0)
  {
  }

  lemma {:induction false} WordRead(coding: bool, f: Flags, s: seq<Byte>)
    requires IsElement(s)
    ensures var h := Feed(Held(Start(coding), 0, f), s); Stands(coding, s, h.matcher, h.index) && h.flags == f
    decreases |s|
  {
    hide ListChar, Stands, Start, Lower, WithWord;
    var k := |s| - 1;
    var h := Feed(Held(Start(coding), 0, f), s[..k]);
    assert s == s[..k] + [s[k]];
    TokenIsPlain(s[k]);
    if k == 0 {
      ElementStarts(coding, s[0]);
    } else {
      WordRead(coding, f, s[..k]);
      ElementGoesOn(coding, s[..k], h.matcher, h.index, s[k]);
    }
  }

  lemma TokenIsPlain(c: Byte)
    requires Token(c) != 0
    ensures c != COMMA && c != SP
  {
  }

  /** The word of this kind that an element begins and that the matcher still has in mind behind it. */
  predicate Kept(coding: bool, x: Item, w: Word) {
    w.Chunked? == coding && Begins(w, x.word) && (IsWord(w, x.word) || x.trail == [])
  }

  /** The matcher behind an element it has looked at. */
  predicate Behind(coding: bool, x: Item, m: Matcher, index: nat) {
    (forall w: Word :: Kept(coding, x, w) ==> if IsWord(w, x.word) then m == Done(w) else m == Reading(w))
    && ((forall w: Word :: !Kept(coding, x, w)) ==> m == Other(coding))
  }

  lemma {:induction false} TrailRead(coding: bool, x: Item, h: Held, n: nat)
    requires Stands(coding, x.word, h.matcher, h.index) && Spaces(x.trail) && n <= |x.trail|
    ensures var g := Feed(h, x.trail[..n]); Behind(coding, x.(trail := x.trail[..n]), g.matcher, g.index) && g.flags == h.flags
    decreases n
  {
    hide ListChar, Begins, IsWord;
    if n > 0 {
      TrailRead(coding, x, h, n - 1);
      assert x.trail[..n][..n - 1] == x.trail[..n - 1];
      var g := Feed(h, x.trail[..n - 1]);
      SpaceBehind(coding, x.(trail := x.trail[..n - 1]), g.matcher, g.index, x.(trail := x.trail[..n]));
    } else {
      NothingBehind(coding, x.(trail := x.trail[..n]), h.matcher, h.index);
    }
  }

  lemma {:induction false} NothingBehind(coding: bool, x: Item, m: Matcher, index: nat)
    requires Stands(coding, x.word, m, index) && x.trail == []
    ensures Behind(coding, x, m, index)
  {
    hide Begins, IsWord;
    forall w: Word ensures Kept(coding, x, w) <==> w.Chunked? == coding && Begins(w, x.word) {
    }
  }

  lemma {:induction false} SpaceBehind(coding: bool, x: Item, m: Matcher, index: nat, y: Item)
    requires Behind(coding, x, m, index) && y == x.(trail := y.trail) && y.trail != []
    ensures var r := ListChar(m, index, SP); Behind(coding, y, r.matcher, r.index)
  {
    hide ListChar, Begins, IsWord, Spelling, Lower;
    OtherGoesOn(coding, index, SP);
    if w: Word :| Kept(coding, x, w) {
      forall v: Word | Kept(coding, y, v) ensures v == w {
        BeginsOnce(v, w, x.word);
      }
      assert Kept(coding, y, w) <==> IsWord(w, x.word);
      WordEnds(w, index, SP);
      WordGoesOn(w, index, SP);
      NoSign(w, index + 1);
    } else {
      forall v: Word ensures !Kept(coding, y, v) {
        assert !Kept(coding, x, v);
      }
    }
  }

  /** Neither a space nor a comma is part of a word. */
  lemma NoSign(w: Word, i: nat)
    ensures !IsAt(Spelling(w), i, Lower(SP)) && !IsAt(Spelling(w), i, Lower(COMMA))
  {
  }

  /** The comma behind such an element is taken for a part of it. */
  predicate Swallows(coding: bool, x: Item) {
    exists w: Word :: Kept(coding, x, w) && (coding || !IsWord(w, x.word))
  }

  lemma {:induction false} CommaBehind(coding: bool, x: Item, m: Matcher, index: nat)
    requires Behind(coding, x, m, index)
    ensures Swallows(coding, x) ==> ListChar(m, index, COMMA).matcher == Other(coding)
    ensures !Swallows(coding, x) ==> ListChar(m, index, COMMA) == Cursor(Start(coding), 0)
  {
    hide ListChar, Begins, IsWord, Spelling, Lower;
    OtherGoesOn(coding, index, COMMA);
    if w: Word :| Kept(coding, x, w) {
      WordEnds(w, index, COMMA);
      WordGoesOn(w, index, COMMA);
      NoSign(w, index + 1);
      forall v: Word | Kept(coding, x, v) ensures v == w {
        BeginsOnce(v, w, x.word);
      }
    }
  }

  lemma {:induction false} ItemRead(coding: bool, f: Flags, x: Item)
    requires IsItem(x)
    ensures var h := Feed(Held(Start(coding), 0, f), ItemText(x)); Behind(coding, x, h.matcher, h.index) && h.flags == f
  {
    hide Feed, Behind, Stands;
    var h := Held(Start(coding), 0, f);
    LeadRead(coding, f, x.lead);
    FeedConcat(h, x.lead, x.word);
    WordRead(coding, f, x.word);
    FeedConcat(h, x.lead + x.word, x.trail);
    TrailRead(coding, x, Feed(h, x.word), |x.trail|);
    assert x.trail[..|x.trail|] == x.trail;
  }

  /** An element that is not looked at. */
  lemma {:induction false} Passed(coding: bool, h: Held, s: seq<Byte>)
    requires h.matcher == Other(coding) && COMMA !in s
    ensures Feed(h, s).matcher == Other(coding) && Feed(h, s).flags == h.flags
  {
    hide ListChar;
    if s != [] {
      Passed(coding, h, s[..|s| - 1]);
      OtherGoesOn(coding, Feed(h, s[..|s| - 1]).index, s[|s| - 1]);
    }
  }

  lemma NoComma(x: Item)
    requires IsItem(x)
    ensures COMMA !in ItemText(x)
  {
    var s := ItemText(x);
    forall i | 0 <= i < |s| ensures s[i] != COMMA {
      if |x.lead| <= i < |x.lead| + |x.word| {
        TokenIsPlain(s[i]);
      }
    }
  }

  // ---------- whole lists ----------

  predicate IsList(xs: seq<Item>) {
    xs != [] && xs[0].lead == [] && forall i :: 0 <= i < |xs| ==> IsItem(xs[i])
  }

  function TextTo(xs: seq<Item>, n: nat): seq<Byte>
    requires n <= |xs|
  {
    if n == 0 then [] else if n == 1 then ItemText(xs[0]) else TextTo(xs, n - 1) + [COMMA] + ItemText(xs[n - 1])
  }

  function ListText(xs: seq<Item>): seq<Byte> { TextTo(xs, |xs|) }

  /** An element is looked at unless the one before it was looked at and has swallowed the comma. */
  predicate Awake(coding: bool, xs: seq<Item>, i: nat)
    requires i < |xs|
  {
    i == 0 || !(Awake(coding, xs, i - 1) && Swallows(coding, xs[i - 1]))
  }

  predicate HasFlag(w: Word, f: Flags) {
    match w case KeepAlive => f.keepAlive case Close => f.close case Upgrading => f.connUpgrade case Chunked => f.chunked
  }

  /** One of the first `n` elements is the word, and is looked at. */
  predicate FoundIn(xs: seq<Item>, w: Word, n: nat)
    requires n <= |xs|
  {
    exists i :: 0 <= i < n && Awake(false, xs, i) && IsWord(w, xs[i].word)
  }

  lemma {:induction false} FoundMore(xs: seq<Item>, w: Word, n: nat)
    requires n < |xs|
    ensures FoundIn(xs, w, n + 1) <==> FoundIn(xs, w, n) || (Awake(false, xs, n) && IsWord(w, xs[n].word))
  {
    hide Awake, IsWord;
  }

  lemma {:induction false} BehindDone(coding: bool, x: Item, m: Matcher, index: nat, w: Word)
    requires Behind(coding, x, m, index) && w.Chunked? == coding
    ensures m == Done(w) <==> IsWord(w, x.word)
  {
    hide Begins, Spelling;
    if IsWord(w, x.word) {
      assert Kept(coding, x, w);
    } else if v: Word :| Kept(coding, x, v) {
    }
  }

  lemma WordFlag(w: Word, m: Matcher, f: Flags)
    requires !w.Chunked?
    ensures HasFlag(w, WithWord(m, f)) <==> HasFlag(w, f) || m == Done(w)
  {
  }

  /** The matcher behind the first `n` elements: the last of them counts for itself, the others have left
      their flags. */
  predicate ListState(coding: bool, f: Flags, xs: seq<Item>, n: nat, h: Held)
    requires 0 < n <= |xs|
  {
    (if Awake(coding, xs, n - 1) then Behind(coding, xs[n - 1], h.matcher, h.index) else h.matcher == Other(coding))
    && (!coding ==> forall w: Word :: !w.Chunked? ==> (HasFlag(w, h.flags) <==> HasFlag(w, f) || FoundIn(xs, w, n - 1)))
  }

  lemma {:induction false} StateDone(coding: bool, f: Flags, xs: seq<Item>, n: nat, h: Held, w: Word)
    requires 0 < n <= |xs| && ListState(coding, f, xs, n, h) && w.Chunked? == coding
    ensures h.matcher == Done(w) <==> Awake(coding, xs, n - 1) && IsWord(w, xs[n - 1].word)
  {
    hide Behind, IsWord, FoundIn, HasFlag, Awake;
    if Awake(coding, xs, n - 1) {
      BehindDone(coding, xs[n - 1], h.matcher, h.index, w);
    }
  }

  /** The comma and the next element. */
  lemma {:induction false} ListGoesOn(coding: bool, f: Flags, xs: seq<Item>, n: nat, h: Held)
    requires 0 < n < |xs| && IsItem(xs[n]) && ListState(coding, f, xs, n, h)
    ensures ListState(coding, f, xs, n + 1, Feed(h, [COMMA] + ItemText(xs[n])))
  {
    hide Behind, ListChar, HasFlag, WithWord, Feed, Swallows, IsItem, IsWord, FoundIn;
    var g := NextHeld(h, COMMA);
    var t := ItemText(xs[n]);
    FeedConcat(h, [COMMA], t);
    FeedOne(h, COMMA);
    forall w: Word | !coding && !w.Chunked?
      ensures HasFlag(w, g.flags) <==> HasFlag(w, f) || FoundIn(xs, w, n)
    {
      WordFlag(w, h.matcher, h.flags);
      StateDone(coding, f, xs, n, h, w);
      FoundMore(xs, w, n - 1);
    }
    if Awake(coding, xs, n - 1) {
      CommaBehind(coding, xs[n - 1], h.matcher, h.index);
    } else {
      OtherGoesOn(coding, h.index, COMMA);
    }
    if Awake(coding, xs, n) {
      ItemRead(coding, g.flags, xs[n]);
    } else {
      NoComma(xs[n]);
      Passed(coding, g, t);
    }
  }

  lemma FeedOne(h: Held, c: Byte)
    ensures Feed(h, [c]) == NextHeld(h, c)
  {
    hide NextHeld;
    assert [c][..0] == [];
  }

  lemma {:induction false} ListRead(coding: bool, f: Flags, xs: seq<Item>, n: nat)
    requires IsList(xs) && 0 < n <= |xs|
    ensures ListState(coding, f, xs, n, Feed(Held(Start(coding), 0, f), TextTo(xs, n)))
    decreases n
  {
    hide Feed, ListState;
    var h := Held(Start(coding), 0, f);
    if n == 1 {
      FirstRead(coding, f, xs);
    } else {
      ListRead(coding, f, xs, n - 1);
      var t := TextTo(xs, n - 1);
      FeedConcat(h, t, [COMMA] + ItemText(xs[n - 1]));
      assert TextTo(xs, n) == t + ([COMMA] + ItemText(xs[n - 1]));
      ListGoesOn(coding, f, xs, n - 1, Feed(h, t));
    }
  }

  lemma {:induction false} FirstRead(coding: bool, f: Flags, xs: seq<Item>)
    requires IsList(xs)
    ensures ListState(coding, f, xs, 1, Feed(Held(Start(coding), 0, f), TextTo(xs, 1)))
  {
    hide Feed, Behind;
    ItemRead(coding, f, xs[0]);
  }

  lemma {:induction false} TextStarts(xs: seq<Item>, n: nat)
    requires IsList(xs) && 0 < n <= |xs|
    ensures TextTo(xs, n) != [] && TextTo(xs, n)[0] == xs[0].word[0]
    decreases n
  {
    if n > 1 {
      TextStarts(xs, n - 1);
    }
  }

  /** The first byte of a value is read as that of any other element. */
  lemma {:induction false} ValueFed(coding: bool, f: Flags, v: seq<Byte>)
    requires v != [] && Token(Lower(v[0])) != 0
    ensures ValueHeld(coding, f, v) == Feed(Held(Start(coding), 0, f), v)
  {
    hide Feed;
    var h := Held(Start(coding), 0, f);
    assert v == [v[0]] + v[1..];
    FeedConcat(h, [v[0]], v[1..]);
    FeedOne(h, v[0]);
    BegunAsNext(coding, f, v[0]);
  }

  lemma BegunAsNext(coding: bool, f: Flags, c: Byte)
    requires Token(Lower(c)) != 0
    ensures Begun(coding, f, c) == NextHeld(Held(Start(coding), 0, f), c)
  {
  }

  /** A Connection header sets exactly the flags of the words among the elements that are looked at. */
  lemma {:induction false} ConnectionWords(f: Flags, xs: seq<Item>, w: Word)
    requires IsList(xs) && !w.Chunked?
    ensures HasFlag(w, ListFlags(f, ListText(xs))) <==>
              HasFlag(w, f) || exists i :: 0 <= i < |xs| && Awake(false, xs, i) && IsWord(w, xs[i].word)
  {
    hide Feed, TextTo, Behind, HasFlag, WithWord, IsWord, Awake;
    var v := ListText(xs);
    TextStarts(xs, |xs|);
    ValueFed(false, f, v);
    ListRead(false, f, xs, |xs|);
    var h := ValueHeld(false, f, v);
    StateDone(false, f, xs, |xs|, h, w);
    WordFlag(w, h.matcher, h.flags);
    FoundMore(xs, w, |xs| - 1);
  }

  /** A Transfer-Encoding is found to end in "chunked" if and only if its last element is that word and is
      looked at. */
  lemma {:induction false} CodingEnds(xs: seq<Item>)
    requires IsList(xs)
    ensures EndsChunked(ListText(xs)) <==> Awake(true, xs, |xs| - 1) && IsWord(Chunked, xs[|xs| - 1].word)
  {
    hide Feed, TextTo, Behind, HasFlag, IsWord, Awake;
    TextStarts(xs, |xs|);
    ValueFed(true, NO_FLAGS, ListText(xs));
    ListRead(true, NO_FLAGS, xs, |xs|);
    StateDone(true, NO_FLAGS, xs, |xs|, ValueHeld(true, NO_FLAGS, ListText(xs)), Chunked);
  }

  /** When no element but the last can be mistaken for the beginning of a word, all are looked at. */
  lemma {:induction false} AllAwake(coding: bool, xs: seq<Item>, i: nat)
    requires i < |xs| && forall j :: 0 <= j < |xs| - 1 ==> !Swallows(coding, xs[j])
    ensures Awake(coding, xs, i)
  {
  }

  /** A word behind an element that swallows its comma is missed. */
  lemma {:induction false} WordMissed(xs: seq<Item>, w: Word)
    requires |xs| == 2 && IsList(xs) && !w.Chunked? && Swallows(false, xs[0]) && !IsWord(w, xs[0].word)
    ensures !HasFlag(w, ListFlags(NO_FLAGS, ListText(xs)))
  {
    hide ListFlags, ListText, IsWord, Swallows, IsList;
    ConnectionWords(NO_FLAGS, xs, w);
    assert Awake(false, xs, 0) && !Awake(false, xs, 1);
  }

  /** An input on which that happens: after "c", the comma is taken for the second letter of "close". */
  lemma {:induction false} CloseMissed()
    ensures !ListFlags(NO_FLAGS, [99, COMMA, 99, 108, 111, 115, 101]).close
  {
    hide ListFlags, Feed;
    var xs := [Item([], [99], []), Item([], [99, 108, 111, 115, 101], [])];
    assert TextTo(xs, 1) == ItemText(xs[0]) == [99];
    assert ListText(xs) == [99] + [COMMA] + ItemText(xs[1]) == [99, COMMA, 99, 108, 111, 115, 101];
    assert Kept(false, xs[0], Close) && !IsWord(Close, xs[0].word);
    WordMissed(xs, Close);
  }
}
