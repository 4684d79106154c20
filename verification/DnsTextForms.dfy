/** The ways a name can be written as a text (section 5.1 of RFC 1035), and that `dns_ptodn` reads exactly these. */
module DnsTextForms {
  import opened Ascii
  import opened DnsNames
  import opened DnsText

  /** How one byte is written: as it is, with a backslash, or as a backslash and its number. */
  datatype How = AsIs | Quoted | Decimal(digits: seq<Byte>)

  predicate IsDigit(c: Byte) { 48 <= c <= 57 }

  function Number(ds: seq<Byte>): int { if ds == [] then 0 else Number(ds[..|ds| - 1]) * 10 + (ds[|ds| - 1] as int - 48) }

  /** A dot and a backslash need more than themselves, and a digit cannot stand behind a backslash alone. */
  predicate MayStand(b: Byte, how: How) {
    match how
    case AsIs => b != 46 && b != 92
    case Quoted => !IsDigit(b)
    case Decimal(ds) => 1 <= |ds| <= 3 && Number(ds) == b as int && forall i :: 0 <= i < |ds| ==> IsDigit(ds[i])
  }

  function ByteText(b: Byte, how: How): seq<Byte> {
    match how case AsIs => [b] case Quoted => [92, b] case Decimal(ds) => [92] + ds
  }

  /** A number of less than three digits ends in front of what is not a digit. */
  predicate IsForm(l: Label, h: seq<How>) {
    |h| == |l| && (forall i :: 0 <= i < |l| ==> MayStand(l[i], h[i]))
    && forall i :: 0 < i < |l| ==> h[i - 1].Decimal? && |h[i - 1].digits| < 3 ==> !(h[i].AsIs? && IsDigit(l[i]))
  }

  function FormText(l: Label, h: seq<How>): seq<Byte>
    requires |h| == |l|
  {
    if l == [] then [] else ByteText(l[0], h[0]) + FormText(l[1..], h[1..])
  }

  predicate AreForms(n: seq<Label>, hs: seq<seq<How>>) {
    |hs| == |n| && forall i :: 0 <= i < |n| ==> IsForm(n[i], hs[i])
  }

  /** The labels with dots between them. */
  function NameText(n: seq<Label>, hs: seq<seq<How>>): seq<Byte>
    requires AreForms(n, hs)
  {
    if n == [] then []
    else FormText(n[0], hs[0]) + if |n| == 1 then [] else [46] + NameText(n[1..], hs[1..])
  }

  /** A name, and a dot behind it or not. */
  function WholeText(n: seq<Label>, hs: seq<seq<How>>, dot: bool): seq<Byte>
    requires AreForms(n, hs)
  {
    NameText(n, hs) + if dot then [46] else []
  }

  // ---------- what is written is read ----------

  lemma {:induction false} NumberRead(ds: seq<Byte>, t: seq<Byte>)
    requires 1 <= |ds| <= 3 && (forall i :: 0 <= i < |ds| ==> IsDigit(ds[i])) && (|ds| < 3 ==> t == [] || !IsDigit(t[0]))
    ensures ReadEscape(ds + t) == Escaped(Number(ds), |ds|)
  {
    var s := ds + t;
    assert forall i :: 0 <= i < |ds| ==> s[i] == ds[i];
    assert |s| > |ds| ==> s[|ds|] == t[0];
    NumberOf(ds);
  }

  lemma NumberOf(ds: seq<Byte>)
    requires 1 <= |ds| <= 3
    ensures |ds| == 1 ==> Number(ds) == ds[0] as int - 48
    ensures |ds| == 2 ==> Number(ds) == (ds[0] as int - 48) * 10 + (ds[1] as int - 48)
    ensures |ds| == 3 ==> Number(ds) == ((ds[0] as int - 48) * 10 + (ds[1] as int - 48)) * 10 + (ds[2] as int - 48)
  {
    assert Number([]) == 0;
    assert ds[..1][..0] == [] && Number(ds[..1]) == ds[0] as int - 48;
    if |ds| == 1 {
      assert ds[..1] == ds;
    } else {
      assert ds[..2][..1] == ds[..1] && Number(ds[..2]) == (ds[0] as int - 48) * 10 + (ds[1] as int - 48);
      assert ds[..|ds|] == ds;
    }
  }

  lemma QuotedRead(b: Byte, t: seq<Byte>)
    requires !IsDigit(b)
    ensures ReadEscape([b] + t) == Escaped(b, 1)
  {
  }

  lemma {:induction false} ByteRead(b: Byte, how: How, t: seq<Byte>, done: seq<Byte>, cur: seq<Byte>, room: nat)
    requires MayStand(b, how) && |done| + 1 + |cur| + 1 < room
    requires how.Decimal? && |how.digits| < 3 ==> t == [] || !IsDigit(t[0])
    ensures ReadRest(ByteText(b, how) + t, done, cur, room) == ReadRest(t, done, cur + [b], room)
  {
    hide ReadRest, ReadEscape, Number;
    var s := ByteText(b, how) + t;
    ReadStep(s, done, cur, room);
    match how
    case AsIs => assert s[1..] == t;
    case Quoted =>
      assert s[1..] == [b] + t && s[2..] == t;
      QuotedRead(b, t);
    case Decimal(ds) =>
      assert s[1..] == ds + t && s[1 + |ds|..] == t;
      NumberRead(ds, t);
  }

  lemma {:induction false} LabelRead(l: Label, h: seq<How>, t: seq<Byte>, done: seq<Byte>, cur: seq<Byte>, room: nat)
    requires IsForm(l, h) && |done| + 1 + |cur| + |l| < room && (t == [] || t[0] == 46)
    ensures ReadRest(FormText(l, h) + t, done, cur, room) == ReadRest(t, done, cur + l, room)
    decreases |l|
  {
    hide ReadRest, MayStand, IsForm, ByteText;
    FormSize(l, h);
    if l == [] {
      assert FormText(l, h) + t == t && cur + l == cur;
    } else {
      var rest := FormText(l[1..], h[1..]);
      FormRest(l, h);
      NextByte(l[1..], h[1..], t);
      FirstStands(l, h);
      assert FormText(l, h) + t == ByteText(l[0], h[0]) + (rest + t);
      ByteRead(l[0], h[0], rest + t, done, cur, room);
      LabelRead(l[1..], h[1..], t, done, cur + [l[0]], room);
      assert cur + [l[0]] + l[1..] == cur + l;
    }
  }

  lemma FormSize(l: Label, h: seq<How>)
    requires IsForm(l, h)
    ensures |h| == |l|
  {
  }

  lemma FirstStands(l: Label, h: seq<How>)
    requires IsForm(l, h) && l != []
    ensures MayStand(l[0], h[0])
  {
  }

  lemma FormRest(l: Label, h: seq<How>)
    requires IsForm(l, h) && l != []
    ensures IsForm(l[1..], h[1..])
    ensures |l| > 1 && h[0].Decimal? && |h[0].digits| < 3 ==> !(h[1].AsIs? && IsDigit(l[1]))
  {
    hide MayStand;
  }

  /** What the text of some bytes starts with. */
  lemma NextByte(l: Label, h: seq<How>, t: seq<Byte>)
    requires IsForm(l, h) && (t == [] || t[0] == 46)
    ensures var s := FormText(l, h) + t; s != [] && IsDigit(s[0]) ==> l != [] && h[0].AsIs? && IsDigit(l[0])
  {
    if l != [] {
      assert MayStand(l[0], h[0]);
      assert (FormText(l, h) + t)[0] == ByteText(l[0], h[0])[0];
    }
  }

  /** A label with the dot behind it. */
  lemma {:induction false} DottedRead(l: Label, h: seq<How>, rest: seq<Byte>, done: seq<Byte>, room: nat)
    requires IsLabel(l) && IsForm(l, h) && |done| + 1 + |l| < room
    ensures ReadRest(FormText(l, h) + ([46] + rest), done, [], room) == ReadRest(rest, done + [|l|] + l, [], room)
  {
    hide ReadRest, IsForm, FormText;
    assert [] + l == l;
    LabelRead(l, h, [46] + rest, done, [], room);
    ReadStep([46] + rest, done, l, room);
    assert ([46] + rest)[1..] == rest;
  }

  lemma {:induction false} LabelsRead(d: seq<Label>, n: seq<Label>, hs: seq<seq<How>>, t: seq<Byte>, room: nat)
    requires IsName(d) && IsName(n) && n != [] && AreForms(n, hs) && |Labels(d)| + |Labels(n)| + 1 <= room && (t == [] || t[0] == 46)
    ensures IsName(d + n[..|n| - 1])
    ensures ReadRest(NameText(n, hs) + t, Labels(d), [], room) == ReadRest(t, Labels(d + n[..|n| - 1]), n[|n| - 1], room)
    decreases |n|
  {
    hide ReadRest, IsForm, Labels, FormText;
    LabelsOf(n);
    SameSizes(n, hs);
    if |n| == 1 {
      assert NameText(n, hs) == FormText(n[0], hs[0]);
      assert [] + n[0] == n[0];
      LabelRead(n[0], hs[0], t, Labels(d), [], room);
      assert d + n[..0] == d;
    } else {
      var rest := NameText(n[1..], hs[1..]) + t;
      assert NameText(n, hs) + t == FormText(n[0], hs[0]) + ([46] + rest);
      DottedRead(n[0], hs[0], rest, Labels(d), room);
      Longer(d, n[0]);
      LabelsRead(d + [n[0]], n[1..], hs[1..], t, room);
      assert d + [n[0]] + n[1..][..|n| - 2] == d + n[..|n| - 1];
    }
  }

  lemma SameSizes(n: seq<Label>, hs: seq<seq<How>>)
    requires AreForms(n, hs)
    ensures forall i :: 0 <= i < |n| ==> |hs[i]| == |n[i]|
  {
    hide MayStand;
  }

  lemma LabelsOf(n: seq<Label>)
    requires IsName(n) && n != []
    ensures |Labels(n)| == 1 + |n[0]| + |Labels(n[1..])|
  {
  }

  /** The room in `dns_ptodn`. */
  function Least(size: nat): nat { if size >= 255 then 255 else size }

  /** Every way to write a name is read as this name; it is absolute if and only if a dot stands at the end, or it is
      the root. */
  lemma {:induction false} FormsRead(n: seq<Label>, hs: seq<seq<How>>, dot: bool, size: nat)
    requires IsName(n) && AreForms(n, hs) && |Labels(n)| + 1 <= Least(size)
    ensures ReadText(WholeText(n, hs, dot), size) == Dn(Wire(n), dot || n == [])
  {
    hide ReadRest, IsForm, Labels, NameText;
    var t: seq<Byte> := if dot then [46] else [];
    NoLabels();
    if n == [] {
      NoNameText(n, hs);
      assert WholeText(n, hs, dot) == t;
      ReadEnd([], [], Least(size));
    } else {
      var k := |n| - 1;
      LabelsRead([], n, hs, t, Least(size));
      assert [] + n[..k] == n[..k];
      NotOnlyDot(n, hs, t);
      LabelsLast(n);
      ReadEnd(Labels(n[..k]), n[k], Least(size));
      assert IsLabel(n[k]);
      if dot {
        ReadStep(t, Labels(n[..k]), n[k], Least(size));
        assert t[1..] == [];
        ReadEnd(Labels(n), [], Least(size));
      }
    }
  }

  lemma NoNameText(n: seq<Label>, hs: seq<seq<How>>)
    requires n == [] && AreForms(n, hs)
    ensures NameText(n, hs) == []
  {
  }

  lemma NotOnlyDot(n: seq<Label>, hs: seq<seq<How>>, t: seq<Byte>)
    requires IsName(n) && n != [] && AreForms(n, hs)
    ensures NameText(n, hs) + t != [46]
  {
    var l, h := n[0], hs[0];
    assert IsLabel(l) && IsForm(l, h);
    assert MayStand(l[0], h[0]);
    assert (NameText(n, hs) + t)[0] == ByteText(l[0], h[0])[0] != 46;
  }

  // ---------- what is read is written ----------

  /** What is left to read, inside a label: the rest of the label, the labels behind it, and a last dot or none. */
  datatype Left = Left(l: Label, h: seq<How>, n: seq<Label>, hs: seq<seq<How>>, dot: bool)

  predicate IsLeft(x: Left) { IsForm(x.l, x.h) && IsName(x.n) && AreForms(x.n, x.hs) }

  function LeftText(x: Left): seq<Byte>
    requires IsLeft(x)
  {
    FormText(x.l, x.h) + (if x.n == [] then [] else [46] + NameText(x.n, x.hs)) + (if x.dot then [46] else [])
  }

  /** The whole name, when the labels `d` and the bytes `cur` stand in front. */
  function NameOf(d: seq<Label>, cur: seq<Byte>, x: Left): seq<Label> {
    d + (if cur + x.l == [] then [] else [cur + x.l]) + x.n
  }

  /** The text is read as this name. */
  predicate ReadAs(t: seq<Byte>, d: seq<Label>, cur: seq<Byte>, room: nat, x: Left)
    requires IsName(d)
  {
    IsLeft(x) && t == LeftText(x) && (cur + x.l == [] ==> x.n == [] && !x.dot) && IsName(NameOf(d, cur, x))
    && ReadRest(t, Labels(d), cur, room) == Dn(Wire(NameOf(d, cur, x)), x.dot || cur + x.l == []) && |Wire(NameOf(d, cur, x))| <= room
  }

  lemma LabelOf(d: seq<Label>, cur: seq<Byte>, x: Left)
    requires IsName(NameOf(d, cur, x)) && cur + x.l != []
    ensures IsLabel(cur + x.l)
  {
    assert NameOf(d, cur, x)[|d|] == cur + x.l;
  }

  lemma {:induction false} EndLeft(d: seq<Label>, cur: seq<Byte>, room: nat) returns (x: Left)
    requires IsName(d) && |Labels(d)| + 1 + |cur| + (if cur == [] then 0 else 1) <= room
    requires ReadRest([], Labels(d), cur, room).Dn?
    ensures ReadAs([], d, cur, room, x)
  {
    hide Labels;
    x := Left([], [], [], [], false);
    assert cur + [] == cur;
    assert d + [] + [] == d;
    ReadEnd(Labels(d), cur, room);
    if cur != [] {
      Longer(d, cur);
      assert d + [cur] + [] == d + [cur];
    }
  }

  /** The dot behind the last label. */
  lemma {:induction false} LastDot(t: seq<Byte>, d: seq<Label>, cur: seq<Byte>, room: nat, y: Left) returns (x: Left)
    requires IsName(d) && t != [] && t[0] == 46 && IsLabel(cur) && IsName(d + [cur]) && ReadAs(t[1..], d + [cur], [], room, y)
    requires ReadRest(t, Labels(d), cur, room) == ReadRest(t[1..], Labels(d + [cur]), [], room) && y.l == []
    ensures ReadAs(t, d, cur, room, x)
  {
    hide ReadRest, Labels, Wire, IsForm, FormText;
    x := Left([], [], [], [], true);
    NoForm(y.l, y.h);
    SimpleForm();
    FormSize(y.l, y.h);
    NothingLeft(y);
    assert [] + y.l == y.l;
    NothingLeft(x.(dot := false));
    assert cur + [] == cur;
    assert NameOf(d, cur, x) == NameOf(d + [cur], [], y) == d + [cur];
  }

  lemma NothingLeft(y: Left)
    requires IsLeft(y) && y.l == [] && y.n == [] && !y.dot
    ensures LeftText(y) == [] && LeftText(y.(dot := true)) == [46]
  {
    NoForm(y.l, y.h);
  }

  lemma {:induction false} DotNames(d: seq<Label>, cur: seq<Byte>, y: Left)
    requires y.l != [] && IsLabel(cur)
    ensures NameOf(d, cur, Left([], [], [y.l] + y.n, [y.h] + y.hs, y.dot)) == NameOf(d + [cur], [], y)
  {
    assert [] + y.l == y.l && cur + [] == cur;
  }

  lemma {:induction false} DotText(y: Left)
    requires IsLeft(y) && IsLabel(y.l)
    ensures var x := Left([], [], [y.l] + y.n, [y.h] + y.hs, y.dot); IsLeft(x) && LeftText(x) == [46] + LeftText(y)
  {
    hide IsForm;
    SimpleForm();
    InFront(y);
  }

  /** A dot ends a label. */
  lemma {:induction false} DotLeft(t: seq<Byte>, d: seq<Label>, cur: seq<Byte>, room: nat, y: Left) returns (x: Left)
    requires IsName(d) && t != [] && t[0] == 46 && IsLabel(cur) && IsName(d + [cur]) && ReadAs(t[1..], d + [cur], [], room, y)
    requires ReadRest(t, Labels(d), cur, room) == ReadRest(t[1..], Labels(d + [cur]), [], room)
    ensures ReadAs(t, d, cur, room, x)
  {
    hide ReadRest, Labels, Wire, IsForm, LeftText, NameOf, IsLeft, AreForms;
    if y.l == [] {
      x := LastDot(t, d, cur, room, y);
    } else {
      assert [] + y.l == y.l && cur + [] == cur && t == [46] + t[1..];
      x := Left([], [], [y.l] + y.n, [y.h] + y.hs, y.dot);
      LabelOf(d + [cur], [], y);
      DotText(y);
      DotNames(d, cur, y);
    }
  }

  lemma SimpleForm()
    ensures IsForm([], []) && FormText([], []) == []
  {
  }

  lemma NoForm(l: Label, h: seq<How>)
    requires IsForm(l, h) && l == []
    ensures FormText(l, h) == []
  {
  }

  lemma InFront(y: Left)
    requires IsLeft(y) && IsLabel(y.l)
    ensures IsName([y.l] + y.n) && AreForms([y.l] + y.n, [y.h] + y.hs)
    ensures NameText([y.l] + y.n, [y.h] + y.hs) == FormText(y.l, y.h) + if y.n == [] then [] else [46] + NameText(y.n, y.hs)
  {
    hide IsForm;
    var n, hs := [y.l] + y.n, [y.h] + y.hs;
    assert n[1..] == y.n && hs[1..] == y.hs;
    assert forall i :: 0 < i < |n| ==> n[i] == y.n[i - 1] && hs[i] == y.hs[i - 1];
  }

  /** One byte more in front. */
  lemma {:induction false} ByteLeft(t: seq<Byte>, b: Byte, how: How, rest: seq<Byte>, d: seq<Label>, cur: seq<Byte>, room: nat, y: Left) returns (x: Left)
    requires IsName(d) && t == ByteText(b, how) + rest && MayStand(b, how) && ReadAs(rest, d, cur + [b], room, y)
    requires how.Decimal? && |how.digits| < 3 ==> rest == [] || !IsDigit(rest[0])
    requires ReadRest(t, Labels(d), cur, room) == ReadRest(rest, Labels(d), cur + [b], room)
    ensures ReadAs(t, d, cur, room, x)
  {
    hide ReadRest, Labels, Wire, MayStand, ByteText;
    x := y.(l := [b] + y.l, h := [how] + y.h);
    assert x.l[1..] == y.l && x.h[1..] == y.h;
    assert cur + [b] + y.l == cur + x.l;
    assert NameOf(d, cur, x) == NameOf(d, cur + [b], y);
    MoreForm(b, how, y, rest);
    assert t == LeftText(x);
  }

  lemma MoreForm(b: Byte, how: How, y: Left, rest: seq<Byte>)
    requires IsLeft(y) && rest == LeftText(y) && MayStand(b, how)
    requires how.Decimal? && |how.digits| < 3 ==> rest == [] || !IsDigit(rest[0])
    ensures IsForm([b] + y.l, [how] + y.h)
  {
    var l, h := [b] + y.l, [how] + y.h;
    assert forall i :: 0 < i < |l| ==> l[i] == y.l[i - 1] && h[i] == y.h[i - 1];
    if y.l != [] && y.h[0].AsIs? {
      assert FormText(y.l, y.h)[0] == y.l[0];
      assert rest[0] == y.l[0];
    }
  }

  lemma {:induction false} EscapeIs(t: seq<Byte>) returns (how: How)
    requires t != [] && 0 <= ReadEscape(t).c < 256
    ensures
      var e := ReadEscape(t);
      MayStand(e.c, how) && [92] + t == ByteText(e.c, how) + t[e.used..]
      && (how.Decimal? && |how.digits| < 3 ==> t[e.used..] == [] || !IsDigit(t[e.used..][0]))
  {
    var e := ReadEscape(t);
    if !IsDigit(t[0]) {
      how := Quoted;
    } else {
      how := Decimal(t[..e.used]);
      NumberOf(t[..e.used]);
    }
  }

  lemma {:induction false} RestReadAs(t: seq<Byte>, d: seq<Label>, cur: seq<Byte>, room: nat) returns (x: Left)
    requires IsName(d) && |Labels(d)| + 1 + |cur| + (if cur == [] then 0 else 1) <= room && ReadRest(t, Labels(d), cur, room).Dn?
    ensures ReadAs(t, d, cur, room, x)
    decreases |t|
  {
    hide ReadRest, ReadEscape, Labels, ReadAs, ByteText, MayStand;
    if t == [] {
      x := EndLeft(d, cur, room);
    } else {
      ReadStep(t, Labels(d), cur, room);
      if t[0] == 46 {
        Longer(d, cur);
        var y := RestReadAs(t[1..], d + [cur], [], room);
        x := DotLeft(t, d, cur, room, y);
      } else if t[0] != 92 {
        var y := RestReadAs(t[1..], d, cur + [t[0]], room);
        PlainStands(t);
        x := ByteLeft(t, t[0], AsIs, t[1..], d, cur, room, y);
      } else {
        var e := ReadEscape(t[1..]);
        var how := EscapeIs(t[1..]);
        var y := RestReadAs(t[1 + e.used..], d, cur + [e.c], room);
        assert t[1..][e.used..] == t[1 + e.used..] && t == [92] + t[1..];
        x := ByteLeft(t, e.c, how, t[1 + e.used..], d, cur, room, y);
      }
    }
  }

  lemma PlainStands(t: seq<Byte>)
    requires t != [] && t[0] != 46 && t[0] != 92
    ensures MayStand(t[0], AsIs) && t == ByteText(t[0], AsIs) + t[1..]
  {
  }

  /** Every text that is accepted is one of the ways to write the name that is given. */
  lemma {:induction false} TextIsForm(t: seq<Byte>, size: nat) returns (n: seq<Label>, hs: seq<seq<How>>, dot: bool)
    requires ReadText(t, size).Dn?
    ensures IsName(n) && AreForms(n, hs) && t == WholeText(n, hs, dot) && |Labels(n)| + 1 <= Least(size)
    ensures ReadText(t, size) == Dn(Wire(n), dot || n == [])
  {
    hide ReadRest, ReadEscape, Labels, IsForm;
    NoLabels();
    if t == [46] {
      n, hs, dot := [], [], true;
    } else {
      var x := RestReadAs(t, [], [], Least(size));
      assert [] + x.l == x.l;
      n, hs, dot := [], [], false;
      NoNameText(n, hs);
      if x.l != [] {
        LabelOf([], [], x);
        InFront(x);
        n, hs, dot := [x.l] + x.n, [x.h] + x.hs, x.dot;
        assert NameOf([], [], x) == n;
      } else {
        NoForm(x.l, x.h);
        assert NameOf([], [], x) == n;
      }
    }
  }

  // ---------- how names are written out ----------

  /** The way `dns_dntop` writes a byte. */
  function Usual(b: Byte): How {
    if OneOf(b, ".;@$\"\\") then Quoted else if 33 <= b <= 126 then AsIs else Decimal([48 + b / 100, 48 + b / 10 % 10, 48 + b % 10])
  }

  /** It is the way that is usual (section 5.1 of RFC 1035). */
  lemma EscapeUsual(b: Byte)
    ensures Escape(b) == ByteText(b, Usual(b)) && MayStand(b, Usual(b))
  {
    hide Number;
    SpecialIs(b);
    if Usual(b).Decimal? {
      DigitsOf(b);
    }
  }

  lemma SpecialIs(b: Byte)
    ensures IsSpecial(b) <==> OneOf(b, ".;@$\"\\")
  {
  }

  lemma DigitsOf(b: Byte)
    ensures var ds := [48 + b / 100, 48 + b / 10 % 10, 48 + b % 10];
            (forall i :: 0 <= i < 3 ==> IsDigit(ds[i])) && Number(ds) == b as int && b % 100 / 10 == b / 10 % 10
  {
    NumberOf([48 + b / 100, 48 + b / 10 % 10, 48 + b % 10]);
  }
}
