/** Names as text: `dns_dntop`, `dns_dntop_size` and `dns_ptodn`, and the round trip. */
module DnsText {
  import opened Ascii
  import opened DnsNames

  // ---------- the text of a name ----------

  /** . \ " ; @ $ are written with a backslash. */
  predicate IsSpecial(c: Byte) { c == DOT || c == BACKSLASH || c == 34 || c == SEMICOLON || c == AT || c == 36 }

  function Escape(c: Byte): seq<Byte> {
    if IsSpecial(c) then [BACKSLASH, c]
    else if c <= 0x20 || c >= 0x7F then [BACKSLASH, 48 + c / 100, 48 + c % 100 / 10, 48 + c % 10]
    else [c]
  }

  function LabelText(l: Label): seq<Byte> {
    if l == [] then [] else LabelText(l[..|l| - 1]) + Escape(l[|l| - 1])
  }

  /** Labels separated by dots; the root is the empty text. */
  function Text(n: seq<Label>): seq<Byte> {
    if n == [] then []
    else Text(n[..|n| - 1]) + (if |n| == 1 then [] else [DOT]) + LabelText(n[|n| - 1])
  }

  /** What `dns_dntop` returns when the buffer is too small. */
  function TooLong(size: nat): int { if size >= MAX_NAME then -1 else 0 }

  lemma {:induction false} LabelTextGrows(l: Label, i: nat)
    requires i <= |l|
    ensures |LabelText(l[..i])| <= |LabelText(l)| && (0 < i ==> |LabelText(l)| > 0)
    decreases |l|
  {
    if i < |l| {
      assert l[..|l| - 1][..i] == l[..i];
      LabelTextGrows(l[..|l| - 1], i);
    } else {
      assert l[..i] == l;
    }
  }

  lemma {:induction false} TextGrows(n: seq<Label>, k: nat)
    requires k <= |n|
    ensures |Text(n[..k])| <= |Text(n)|
    decreases |n|
  {
    if k < |n| {
      assert n[..|n| - 1][..k] == n[..k];
      TextGrows(n[..|n| - 1], k);
    } else {
      assert n[..k] == n;
    }
  }

  lemma {:induction false} TextNonEmpty(n: seq<Label>)
    requires IsName(n) && n != []
    ensures Text(n) != []
  {
    var l := n[|n| - 1];
    assert l[..1] == [l[0]] && l[..0] == [];
    LabelTextGrows(l, 1);
  }

  /** The text up to and including the k-th label. */
  lemma {:induction false} TextStep(n: seq<Label>, k: nat)
    requires k < |n|
    ensures Text(n[..k + 1]) == Text(n[..k]) + (if k == 0 then [] else [DOT]) + LabelText(n[k])
  {
    assert n[..k + 1][..k] == n[..k];
  }

  lemma NoText(l: Label)
    ensures LabelText(l[..0]) == []
  {
  }

  lemma LabelStep(l: Label, i: nat)
    requires i < |l|
    ensures LabelText(l[..i + 1]) == LabelText(l[..i]) + Escape(l[i])
  {
    assert l[..i + 1][..i] == l[..i];
  }

  /** One byte of a label, written behind `out` into a buffer of `size` bytes. A decimal escape asks
      for one byte more than it writes. */
  method WriteByte(ch: Byte, out: seq<Byte>, size: nat) returns (ok: bool, res: seq<Byte>)
    ensures ok ==> res == out + Escape(ch) && |res| <= size
    ensures !ok ==> |out| + |Escape(ch)| + 1 > size
  {
    if IsSpecial(ch) {
      if |out| + 2 > size { return false, out; }
      res := out + [BACKSLASH, ch];
    } else if ch <= 0x20 || ch >= 0x7F {
      if |out| + 4 >= size { return false, out; }
      res := out + [BACKSLASH, 48 + ch / 100, 48 + ch % 100 / 10, 48 + ch % 10];
    } else {
      if |out| >= size { return false, out; }
      res := out + [ch];
    }
    ok := true;
  }

  /** The inner loop of `dns_dntop`: one label. */
  method WriteLabel(mem: seq<Byte>, d: nat, c: nat, out: seq<Byte>, size: nat) returns (ok: bool, res: seq<Byte>)
    requires d + c <= |mem| && c > 0
    ensures ok ==> res == out + LabelText(mem[d..d + c]) && |res| <= size
    ensures !ok ==> |out| + |LabelText(mem[d..d + c])| + 1 > size
  {
    hide LabelText, Escape;
    ghost var l := mem[d..d + c];
    res := out;
    NoText(l);
    for j := 0 to c
      invariant res == out + LabelText(l[..j])
      invariant j > 0 ==> |res| <= size
    {
      assert l[j] == mem[d + j];
      LabelStep(l, j);
      LabelTextGrows(l, j + 1);
      ok, res := WriteByte(mem[d + j], res, size);
      if !ok { return false, res; }
    }
    assert l[..c] == l;
    ok := true;
  }

  /** `dns_dntop`: succeeds exactly if the buffer has room for the text and a final zero, and writes
      exactly that. */
  method DnToText(mem: seq<Byte>, size: nat, ghost n: seq<Label>) returns (r: int, out: seq<Byte>)
    requires IsName(n) && HoldsAt(mem, 0, n)
    ensures if |Text(n)| + 1 <= size then out == Text(n) + [0] && r == |out| else r == if size >= 1024 then -1 else 0
  {
    hide Text, LabelText, At, HoldsAt, Wire;
    var d: nat := 0;
    out := [];
    ghost var k := 0;
    StartAt(mem, n);
    AtLabel(mem, d, n, k);
    while mem[d] != 0
      invariant d < |mem| && k <= |n| && At(mem, d, n, k)
      invariant out == Text(n[..k]) && (k > 0 ==> |out| <= size) && (k > 0 <==> out != [])
      decreases |mem| - d
    {
      AtLabel(mem, d, n, k);
      TextStep(n, k);
      TextGrows(n, k + 1);
      TextNonEmpty(n[..k + 1]);
      if out != [] {
        if |out| >= size { return TooLong(size), out; }
        out := out + [DOT];
      }
      var c := mem[d];
      var ok;
      ghost var before := out;
      ok, out := WriteLabel(mem, d + 1, c, out, size);
      assert before + LabelText(n[k]) == Text(n[..k + 1]);
      if !ok { return TooLong(size), out; }
      d := d + 1 + c;
      k := k + 1;
      AtLabel(mem, d, n, k);
    }
    AtLabel(mem, d, n, k);
    assert n[..k] == n;
    if |out| >= size { return TooLong(size), out; }
    out := out + [0];
    r := |out|;
  }

  lemma StartAt(mem: seq<Byte>, n: seq<Label>)
    requires IsName(n) && HoldsAt(mem, 0, n)
    ensures At(mem, 0, n, 0) && Text(n[..0]) == []
  {
    assert n[0..] == n;
  }

  // ---------- sizes ----------

  lemma {:induction false} LabelTextSize(l: Label)
    ensures |LabelText(l)| <= 4 * |l|
    decreases |l|
  {
    if l != [] {
      LabelTextSize(l[..|l| - 1]);
    }
  }

  lemma {:induction false} LabelsSize(n: seq<Label>)
    requires IsName(n) && n != []
    ensures |Labels(n)| == |Labels(n[..|n| - 1])| + 1 + |n[|n| - 1]|
  {
    var k := |n| - 1;
    assert n == n[..k] + [n[k]];
    LabelsConcat(n[..k], [n[k]]);
    var one := [n[k]];
    assert one[1..] == [] && Labels(one) == [|n[k]|] + n[k] + Labels(one[1..]);
  }

  /** Each label costs at most four times its bytes and a dot. */
  lemma {:induction false} TextSize(n: seq<Label>)
    requires IsName(n)
    ensures n != [] ==> |Text(n)| <= 4 * |Labels(n)| - 3 * |n| - 1
    decreases |n|
  {
    if n != [] {
      var k := |n| - 1;
      TextSize(n[..k]);
      LabelsSize(n);
      LabelTextSize(n[k]);
    }
  }

  lemma {:induction false} LabelsCount(n: seq<Label>)
    requires IsName(n)
    ensures |Labels(n)| <= 64 * |n|
    decreases |n|
  {
    if n != [] {
      LabelsSize(n);
      LabelsCount(n[..|n| - 1]);
    }
  }

  /** The text of a name of at most 255 bytes, with its final zero, has at most 1004 bytes. */
  lemma {:induction false} TextFits(n: seq<Label>)
    requires IsName(n) && |Wire(n)| <= MAX_DN
    ensures |Text(n)| + 1 <= 1004
  {
    TextSize(n);
    LabelsCount(n);
  }

  /** The same for the longest names `dns_getdn` can produce, whose labels fill all 255 bytes. */
  lemma {:induction false} LongTextFits(n: seq<Label>)
    requires IsName(n) && |Labels(n)| <= MAX_DN
    ensures |Text(n)| + 1 <= 1008
  {
    TextSize(n);
    LabelsCount(n);
  }

  /** The inner loop of `dns_dntop_size`. */
  method LabelSize(mem: seq<Byte>, d: nat, c: nat) returns (size: nat)
    requires d + c <= |mem|
    ensures size == |LabelText(mem[d..d + c])|
  {
    hide LabelText;
    ghost var l := mem[d..d + c];
    size := 0;
    NoText(l);
    for j := 0 to c
      invariant size == |LabelText(l[..j])|
    {
      LabelStep(l, j);
      assert l[j] == mem[d + j];
      size := size + if IsSpecial(mem[d + j]) then 2 else if mem[d + j] <= 0x20 || mem[d + j] >= 0x7F then 4 else 1;
    }
    assert l[..c] == l;
  }

  /** `dns_dntop_size`: the room `dns_dntop` needs, or 0 beyond 1024; a name of at most 255 bytes
      never meets that cut-off. */
  method TextRoom(mem: seq<Byte>, ghost n: seq<Label>) returns (size: nat)
    requires IsName(n) && HoldsAt(mem, 0, n)
    ensures size == if |Text(n)| + 1 > 1024 then 0 else |Text(n)| + 1
    ensures |Wire(n)| <= MAX_DN ==> size == |Text(n)| + 1 <= 1004
  {
    hide Text, LabelText, At, HoldsAt, Wire;
    var d: nat := 0;
    size := 0;
    ghost var k := 0;
    StartAt(mem, n);
    AtLabel(mem, d, n, k);
    while mem[d] != 0
      invariant d < |mem| && k <= |n| && At(mem, d, n, k)
      invariant size == |Text(n[..k])| && (k > 0 <==> size > 0)
      decreases |mem| - d
    {
      AtLabel(mem, d, n, k);
      TextStep(n, k);
      TextNonEmpty(n[..k + 1]);
      if size > 0 { size := size + 1; }
      var s := LabelSize(mem, d + 1, mem[d]);
      size := size + s;
      d := d + 1 + mem[d];
      k := k + 1;
      AtLabel(mem, d, n, k);
    }
    AtLabel(mem, d, n, k);
    assert n[..k] == n;
    if |Wire(n)| <= MAX_DN { TextFits(n); }
    size := size + 1;
    if size > MAX_NAME { size := 0; }
  }

  // ---------- reading a text ----------

  /** What `dns_ptodn` makes of a text: a name, a bad text, or a name too long for the room. */
  datatype Read = Dn(dn: seq<Byte>, absolute: bool) | BadText | NoRoom

  /** The byte an escape stands for and the length of the escape after its backslash: up to three
      decimal digits, or any other byte. */
  datatype Escaped = Escaped(c: int, used: nat)

  function ReadEscape(t: seq<Byte>): (e: Escaped)
    requires t != []
    ensures 1 <= e.used <= |t|
  {
    if !IsNum(t[0]) then Escaped(t[0], 1)
    else if |t| < 2 || !IsNum(t[1]) then Escaped(t[0] - 48, 1)
    else if |t| < 3 || !IsNum(t[2]) then Escaped((t[0] as int - 48) * 10 + (t[1] as int - 48), 2)
    else Escaped(((t[0] as int - 48) * 10 + (t[1] as int - 48)) * 10 + (t[2] as int - 48), 3)
  }

  /** Reads the rest `t` of a text; `done` are the labels written so far, `cur` the bytes of the
      current one, `room` the size of the output (at most 255). */
  function ReadRest(t: seq<Byte>, done: seq<Byte>, cur: seq<Byte>, room: nat): Read
    decreases |t|
  {
    if t == [] then
      if |cur| > MAX_LABEL then BadText
      else if cur == [] then Dn(done + [0], true) else Dn(done + [|cur|] + cur + [0], false)
    else if t[0] == DOT then
      if cur == [] || |cur| > MAX_LABEL then BadText else ReadRest(t[1..], done + [|cur|] + cur, [], room)
    else if |done| + 1 + |cur| + 1 >= room then NoRoom
    else if t[0] != BACKSLASH then ReadRest(t[1..], done, cur + [t[0]], room)
    else if |t| == 1 then BadText
    else
      var e := ReadEscape(t[1..]);
      if e.c > 255 || e.c < 0 then BadText else ReadRest(t[1 + e.used..], done, cur + [e.c], room)
  }

  /** The whole of `dns_ptodn`; the text "." is the root. */
  function ReadText(t: seq<Byte>, size: nat): Read
  {
    if size == 0 then NoRoom
    else if t == [DOT] then Dn([0], true)
    else ReadRest(t, [], [], if size >= MAX_DN then MAX_DN else size)
  }

  /** `dns_ptodn` on a text without its final zero: a loop over the text that fills the name behind a
      length byte kept free for the current label. */
  method TextToDn(text: seq<Byte>, size: nat) returns (r: int, dn: seq<Byte>, absolute: bool)
    ensures
      match ReadText(text, size)
      case Dn(d, isabs) => dn == d && r == |d| && absolute == isabs
      case BadText => r == -1
      case NoRoom => r == if size >= 255 then -1 else 0
  {
    hide ReadRest, ReadEscape;
    absolute := false;
    dn := [];
    if size == 0 { return 0, dn, false; }
    var room := if size >= MAX_DN then MAX_DN else size;
    dn := [0];
    var llab := 1;
    var np := 0;
    assert text[0..] == text && dn[..0] == [] && dn[1..] == [];
    while np < |text|
      invariant np <= |text| && 1 <= llab <= |dn|
      invariant np == 0 ==> dn == [0] && llab == 1
      invariant ReadRest(text[np..], dn[..llab - 1], dn[llab..], room) == ReadRest(text, [], [], room)
      invariant np > 0 ==> text != [DOT]
    {
      ghost var t, done, cur := text[np..], dn[..llab - 1], dn[llab..];
      ReadStep(t, done, cur, room);
      assert t[1..] == text[np + 1..];
      if text[np] == DOT {
        var c := |dn| - llab;
        if c == 0 {
          if np == 0 && np + 1 == |text| {
            assert text == [DOT];
            np := np + 1;
            break;
          }
          return -1, dn, false;
        }
        if c > MAX_LABEL { return -1, dn, false; }
        LabelClosed(dn, llab, c);
        dn := dn[llab - 1 := c] + [0];
        llab := |dn|;
        np := np + 1;
        continue;
      }
      if |dn| >= room - 1 { return if size >= MAX_DN then -1 else 0, dn, false; }
      if text[np] != BACKSLASH {
        LabelGrown(dn, llab, text[np]);
        dn := dn + [text[np]];
        np := np + 1;
        continue;
      }
      np := np + 1;
      if np == |text| { return -1, dn, false; }
      var e := ReadEscape(text[np..]);
      if e.c > 255 || e.c < 0 { return -1, dn, false; }
      LabelGrown(dn, llab, e.c);
      dn := dn + [e.c];
      assert t[1 + e.used..] == text[np + e.used..];
      np := np + e.used;
    }
    assert np == |text| && text[np..] == [];
    ghost var done, cur := dn[..llab - 1], dn[llab..];
    ReadEnd(done, cur, room);
    var c := |dn| - llab;
    if c > MAX_LABEL { return -1, dn, false; }
    LabelSet(dn, llab, c);
    dn := dn[llab - 1 := c];
    if c != 0 {
      dn := dn + [0];
      absolute := false;
    } else {
      absolute := true;
    }
    r := |dn|;
  }

  /** The buffer of `dns_ptodn`: the labels so far, a length byte, the bytes of the current label. */
  lemma LabelSet(dn: seq<Byte>, llab: nat, c: Byte)
    requires 1 <= llab <= |dn|
    ensures dn[llab - 1 := c] == dn[..llab - 1] + [c] + dn[llab..]
    ensures dn[llab..] == [] ==> dn[llab - 1 := c] == dn[..llab - 1] + [c]
  {
  }

  lemma LabelClosed(dn: seq<Byte>, llab: nat, c: Byte)
    requires 1 <= llab <= |dn|
    ensures var d := dn[llab - 1 := c] + [0]; d[..|d| - 1] == dn[..llab - 1] + [c] + dn[llab..] && d[|d|..] == []
  {
    LabelSet(dn, llab, c);
  }

  lemma LabelGrown(dn: seq<Byte>, llab: nat, c: Byte)
    requires 1 <= llab <= |dn|
    ensures (dn + [c])[..llab - 1] == dn[..llab - 1] && (dn + [c])[llab..] == dn[llab..] + [c]
  {
  }

  lemma ReadEnd(done: seq<Byte>, cur: seq<Byte>, room: nat)
    ensures ReadRest([], done, cur, room) ==
              if |cur| > MAX_LABEL then BadText
              else if cur == [] then Dn(done + [0], true) else Dn(done + [|cur|] + cur + [0], false)
  {
  }

  lemma ReadStep(t: seq<Byte>, done: seq<Byte>, cur: seq<Byte>, room: nat)
    requires t != []
    ensures t[0] == DOT && (cur == [] || |cur| > MAX_LABEL) ==> ReadRest(t, done, cur, room) == BadText
    ensures t[0] == DOT && 0 < |cur| <= MAX_LABEL ==>
              ReadRest(t, done, cur, room) == ReadRest(t[1..], done + [|cur|] + cur, [], room)
    ensures t[0] != DOT && |done| + 1 + |cur| + 1 >= room ==> ReadRest(t, done, cur, room) == NoRoom
    ensures t[0] != DOT && |done| + 1 + |cur| + 1 < room && t[0] != BACKSLASH ==>
              ReadRest(t, done, cur, room) == ReadRest(t[1..], done, cur + [t[0]], room)
    ensures t[0] == BACKSLASH && |done| + 1 + |cur| + 1 < room ==>
              if |t| == 1 then ReadRest(t, done, cur, room) == BadText
              else var e := ReadEscape(t[1..]);
                if e.c > 255 || e.c < 0 then ReadRest(t, done, cur, room) == BadText
                else ReadRest(t, done, cur, room) == ReadRest(t[1 + e.used..], done, cur + [e.c], room)
  {
    hide ReadEscape;
  }

  // ---------- the round trip ----------

  /** An escaped byte is read back. */
  lemma {:induction false} EscapeRead(b: Byte, t: seq<Byte>, done: seq<Byte>, cur: seq<Byte>, room: nat)
    requires |done| + 1 + |cur| + 1 < room
    ensures ReadRest(Escape(b) + t, done, cur, room) == ReadRest(t, done, cur + [b], room)
  {
    var s := Escape(b) + t;
    ReadStep(s, done, cur, room);
    if IsSpecial(b) {
      assert s[0] == BACKSLASH && s[1..] == [b] + t;
      assert ReadEscape(s[1..]) == Escaped(b, 1);
      assert s[2..] == t;
    } else if b <= 0x20 || b >= 0x7F {
      assert s[0] == BACKSLASH && s[1..] == [48 + b / 100, 48 + b % 100 / 10, 48 + b % 10] + t;
      ThreeDigits(b, t);
      assert s[4..] == t;
    } else {
      assert s[0] == b && s[1..] == t;
    }
  }

  lemma {:induction false} ThreeDigits(b: Byte, t: seq<Byte>)
    ensures ReadEscape([48 + b / 100, 48 + b % 100 / 10, 48 + b % 10] + t) == Escaped(b, 3)
  {
    assert b / 100 * 100 + b % 100 / 10 * 10 + b % 10 == b;
  }

  lemma {:induction false} LabelRead(l: Label, t: seq<Byte>, done: seq<Byte>, room: nat)
    requires |done| + 1 + |l| < room
    ensures ReadRest(LabelText(l) + t, done, [], room) == ReadRest(t, done, l, room)
    decreases |l|
  {
    hide ReadRest, Escape;
    if l == [] {
      assert LabelText(l) + t == t;
    } else {
      var k := |l| - 1;
      LabelRead(l[..k], Escape(l[k]) + t, done, room);
      EscapeRead(l[k], t, done, l[..k], room);
      assert LabelText(l) + t == LabelText(l[..k]) + (Escape(l[k]) + t);
      assert l == l[..k] + [l[k]];
    }
  }

  lemma NoLabels()
    ensures Labels([]) == []
  {
  }

  lemma {:induction false} NameRead(n: seq<Label>, t: seq<Byte>, room: nat)
    requires IsName(n) && n != [] && |Wire(n)| <= room
    ensures ReadRest(Text(n) + t, [], [], room) == ReadRest(t, Labels(n[..|n| - 1]), n[|n| - 1], room)
    decreases |n|
  {
    hide ReadRest, LabelText, Labels;
    var k := |n| - 1;
    var l := n[k];
    LabelsSize(n);
    NoLabels();
    if k == 0 {
      assert n[..0] == [] && Text(n) == LabelText(l);
      LabelRead(l, t, [], room);
    } else {
      var rest := LabelText(l) + t;
      NameRead(n[..k], [DOT] + rest, room);
      assert Text(n) + t == Text(n[..k]) + ([DOT] + rest);
      var done, cur := Labels(n[..k][..k - 1]), n[..k][k - 1];
      ReadStep([DOT] + rest, done, cur, room);
      assert ([DOT] + rest)[1..] == rest;
      LabelsLast(n[..k]);
      LabelRead(l, t, Labels(n[..k]), room);
    }
  }

  lemma {:induction false} LabelsLast(n: seq<Label>)
    requires IsName(n) && n != []
    ensures Labels(n) == Labels(n[..|n| - 1]) + [|n[|n| - 1]|] + n[|n| - 1]
  {
    var k := |n| - 1;
    var one := [n[k]];
    assert n == n[..k] + one;
    LabelsConcat(n[..k], one);
    assert one[1..] == [] && Labels(one) == [|n[k]|] + n[k] + Labels(one[1..]);
  }

  /** One more label. */
  lemma {:induction false} Longer(ls: seq<Label>, l: Label)
    requires IsName(ls) && IsLabel(l)
    ensures IsName(ls + [l]) && Labels(ls + [l]) == Labels(ls) + [|l|] + l
  {
    var n := ls + [l];
    assert n[..|n| - 1] == ls;
    LabelsLast(n);
  }

  /** Text round trip: every name of at most 255 bytes that fits the room is read back from its text, which holds
      no zero byte, so that a C string carries all of it. */
  lemma {:induction false} RoundTrip(n: seq<Label>, size: nat)
    requires IsName(n) && |Wire(n)| <= MAX_DN && |Wire(n)| <= size
    ensures ReadText(Text(n), size) == Dn(Wire(n), n == []) && 0 !in Text(n)
  {
    hide ReadRest, LabelText, Text, Wire;
    NoZeroInText(n);
    var room := if size >= MAX_DN then MAX_DN else size;
    WireSize(n);
    TextIsNoDot(n);
    if n == [] {
      ReadEnd([], [], room);
      EmptyName(n);
    } else {
      NameRead(n, [], room);
      assert Text(n) + [] == Text(n);
      ReadEnd(Labels(n[..|n| - 1]), n[|n| - 1], room);
      LabelsLast(n);
      WireIs(n);
    }
  }

  lemma WireSize(n: seq<Label>)
    requires IsName(n)
    ensures |Wire(n)| >= 1
  {
  }

  lemma WireIs(n: seq<Label>)
    requires IsName(n)
    ensures Wire(n) == Labels(n) + [0]
  {
  }

  lemma EmptyName(n: seq<Label>)
    requires n == []
    ensures Text(n) == [] && Wire(n) == [0]
  {
  }

  lemma {:induction false} TextIsNoDot(n: seq<Label>)
    requires IsName(n)
    ensures Text(n) != [DOT]
  {
    if n != [] {
      FirstByte(n);
    }
  }

  lemma {:induction false} FirstByte(n: seq<Label>)
    requires IsName(n) && n != []
    ensures Text(n) != [] && Text(n)[0] != DOT
    decreases |n|
  {
    hide LabelText;
    var k := |n| - 1;
    FirstOfLabel(n[k]);
    if k > 0 {
      FirstByte(n[..k]);
    } else {
      assert Text(n[..0]) == [];
      assert Text(n) == LabelText(n[0]);
    }
  }

  lemma {:induction false} FirstOfLabel(l: Label)
    requires l != []
    ensures LabelText(l) != [] && LabelText(l)[0] != DOT
    decreases |l|
  {
    if |l| > 1 {
      FirstOfLabel(l[..|l| - 1]);
    } else {
      assert LabelText(l) == Escape(l[0]);
    }
  }

  lemma {:induction false} NoZeroInLabel(l: Label)
    ensures 0 !in LabelText(l)
    decreases |l|
  {
    if l != [] {
      NoZeroInLabel(l[..|l| - 1]);
    }
  }

  lemma {:induction false} NoZeroInText(n: seq<Label>)
    ensures 0 !in Text(n)
    decreases |n|
  {
    hide LabelText;
    if n != [] {
      NoZeroInText(n[..|n| - 1]);
      NoZeroInLabel(n[|n| - 1]);
    }
  }
}
