/** Domain names (ext/udns-0.4/udns_dn.c): the wire form (section 3.1 of RFC 1035) and the text form
    with escapes (section 5.1 of RFC 1035). */
module DnsNames {
  import opened Ascii

  const MAX_DN: nat := 255
  const MAX_LABEL: nat := 63
  const MAX_NAME: nat := 1024
  const BACKSLASH: Byte := 92

  type Label = seq<Byte>

  predicate IsLabel(l: Label) { 1 <= |l| <= MAX_LABEL }

  predicate IsName(n: seq<Label>) { forall i :: 0 <= i < |n| ==> IsLabel(n[i]) }

  /** A name as length-prefixed labels, without the final zero byte. */
  function Labels(n: seq<Label>): seq<Byte>
    requires IsName(n)
  {
    if n == [] then [] else [|n[0]|] + n[0] + Labels(n[1..])
  }

  function Wire(n: seq<Label>): seq<Byte>
    requires IsName(n)
  {
    Labels(n) + [0]
  }

  lemma {:induction false} LabelsConcat(a: seq<Label>, b: seq<Label>)
    requires IsName(a) && IsName(b)
    ensures IsName(a + b) && Labels(a + b) == Labels(a) + Labels(b)
    decreases |a|
  {
    if a == [] {
      assert a + b == b;
    } else {
      assert (a + b)[1..] == a[1..] + b;
      LabelsConcat(a[1..], b);
      var head, x, y := [|a[0]|] + a[0], Labels(a[1..]), Labels(b);
      assert head + (x + y) == head + x + y;
    }
  }

  // ---------- walking over a name in memory ----------

  /** The names at positions of a buffer: `mem` holds the wire form of `n` at `i`. */
  predicate HoldsAt(mem: seq<Byte>, i: nat, n: seq<Label>)
    requires IsName(n)
  {
    i + |Wire(n)| <= |mem| && mem[i..i + |Wire(n)|] == Wire(n)
  }

  lemma Cut(x: Byte, a: seq<Byte>, b: seq<Byte>)
    ensures ([x] + a + b)[1..1 + |a|] == a && ([x] + a + b)[1 + |a|..] == b
  {
  }

  /** A part of a stretch of memory. */
  lemma Stretch(mem: seq<Byte>, i: nat, w: seq<Byte>, a: nat, b: nat)
    requires i + |w| <= |mem| && mem[i..i + |w|] == w && a <= b <= |w|
    ensures mem[i + a..i + b] == w[a..b]
  {
    var s := mem[i..i + |w|];
    forall x | 0 <= x < b - a ensures mem[i + a..i + b][x] == w[a..b][x] {
      assert s[a + x] == mem[i + (a + x)];
    }
  }

  /** Unrolls one label of a name in memory. */
  lemma {:induction false} HoldsNext(mem: seq<Byte>, i: nat, n: seq<Label>)
    requires IsName(n) && HoldsAt(mem, i, n)
    ensures n == [] ==> mem[i] == 0 && |Wire(n)| == 1
    ensures n != [] ==>
      mem[i] == |n[0]| && i + 1 + |n[0]| < |mem| && mem[i + 1..i + 1 + |n[0]|] == n[0]
      && HoldsAt(mem, i + 1 + |n[0]|, n[1..]) && |Wire(n)| == 1 + |n[0]| + |Wire(n[1..])|
  {
    var w := Wire(n);
    assert mem[i..i + |w|][0] == mem[i];
    if n != [] {
      var k := |n[0]|;
      assert w == [k] + n[0] + Wire(n[1..]);
      Cut(k, n[0], Wire(n[1..]));
      Stretch(mem, i, w, 1, 1 + k);
      Stretch(mem, i, w, 1 + k, |w|);
    }
  }

  /** The walk over `n` has reached its k-th label at position `d`. */
  predicate At(mem: seq<Byte>, d: nat, n: seq<Label>, k: nat) {
    k <= |n| && IsName(n) && IsName(n[k..]) && HoldsAt(mem, d, n[k..])
  }

  lemma {:induction false} AtLabel(mem: seq<Byte>, d: nat, n: seq<Label>, k: nat)
    requires At(mem, d, n, k)
    ensures d < |mem| && k <= |n| && (mem[d] == 0 <==> k == |n|)
    ensures k < |n| ==>
      mem[d] == |n[k]| && 1 <= |n[k]| <= MAX_LABEL && d + 1 + |n[k]| < |mem| && mem[d + 1..d + 1 + |n[k]|] == n[k]
      && At(mem, d + 1 + |n[k]|, n, k + 1)
  {
    HoldsNext(mem, d, n[k..]);
    if k < |n| {
      assert n[k..][0] == n[k] && n[k..][1..] == n[k + 1..];
    }
  }

  /** `dns_dnlen`: the length of a name with its final zero. */
  method DnLen(mem: seq<Byte>, start: nat, ghost n: seq<Label>) returns (length: nat)
    requires IsName(n) && HoldsAt(mem, start, n)
    ensures length == |Wire(n)|
  {
    var d := start;
    ghost var k := 0;
    HoldsNext(mem, d, n);
    while mem[d] != 0
      invariant k <= |n| && start <= d < |mem| && IsName(n[k..]) && HoldsAt(mem, d, n[k..])
      invariant d - start + |Wire(n[k..])| == |Wire(n)|
      decreases |mem| - d
    {
      HoldsNext(mem, d, n[k..]);
      assert n[k..][1..] == n[k + 1..];
      d := d + 1 + mem[d];
      k := k + 1;
    }
    HoldsNext(mem, d, n[k..]);
    length := d - start + 1;
  }

  /** `dns_dnlabels`: the number of labels. */
  method DnLabels(mem: seq<Byte>, ghost n: seq<Label>) returns (labels: nat)
    requires IsName(n) && HoldsAt(mem, 0, n)
    ensures labels == |n|
  {
    var d: nat := 0;
    labels := 0;
    HoldsNext(mem, d, n);
    while mem[d] != 0
      invariant labels <= |n| && d < |mem| && IsName(n[labels..]) && HoldsAt(mem, d, n[labels..])
      decreases |mem| - d
    {
      HoldsNext(mem, d, n[labels..]);
      assert n[labels..][1..] == n[labels + 1..];
      d := d + 1 + mem[d];
      labels := labels + 1;
    }
    HoldsNext(mem, d, n[labels..]);
  }

  /** `DNS_DNLC`. */
  function LowerCase(c: Byte): Byte { if 65 <= c <= 90 then c + 32 else c }

  /** Only the 26 letters have another case (section 2.3.3 of RFC 1035). */
  lemma LowerCaseIs(i: nat, c: Byte)
    requires i < 26
    ensures LowerCase(UPPER[i] as int) as char == LOWER[i] && (!OneOf(c, UPPER) ==> LowerCase(c) == c)
  {
    LettersAt(i);
    LetterRanges(c);
  }

  predicate SameLabel(a: Label, b: Label) {
    |a| == |b| && forall i :: 0 <= i < |a| ==> LowerCase(a[i]) == LowerCase(b[i])
  }

  /** Equality of names, ignoring ASCII case. */
  predicate SameName(a: seq<Label>, b: seq<Label>) {
    |a| == |b| && forall i :: 0 <= i < |a| ==> SameLabel(a[i], b[i])
  }

  /** The inner loop of `dns_dnequal`. */
  method EqualLabel(m1: seq<Byte>, m2: seq<Byte>, d: nat, c: nat) returns (same: bool)
    requires d + c <= |m1| && d + c <= |m2|
    ensures same <==> SameLabel(m1[d..d + c], m2[d..d + c])
  {
    ghost var a, b := m1[d..d + c], m2[d..d + c];
    for j := 0 to c
      invariant forall i :: 0 <= i < j ==> LowerCase(a[i]) == LowerCase(b[i])
    {
      assert m1[d + j] == a[j] && m2[d + j] == b[j];
      if LowerCase(m1[d + j]) != LowerCase(m2[d + j]) { return false; }
    }
    same := true;
  }

  /** `dns_dnequal`. */
  method Equal(m1: seq<Byte>, m2: seq<Byte>, ghost a: seq<Label>, ghost b: seq<Label>) returns (r: nat)
    requires IsName(a) && IsName(b) && HoldsAt(m1, 0, a) && HoldsAt(m2, 0, b)
    ensures r > 0 <==> SameName(a, b)
    ensures r > 0 ==> r == |Wire(a)|
  {
    hide SameLabel, HoldsAt, Wire;
    var d: nat := 0;
    ghost var k := 0;
    while true
      invariant k <= |a| && k <= |b| && IsName(a[k..]) && IsName(b[k..])
      invariant HoldsAt(m1, d, a[k..]) && HoldsAt(m2, d, b[k..])
      invariant d + |Wire(a[k..])| == |Wire(a)|
      invariant forall i :: 0 <= i < k ==> SameLabel(a[i], b[i])
      decreases |a| - k
    {
      HoldsNext(m1, d, a[k..]);
      HoldsNext(m2, d, b[k..]);
      HoldsSize(m1, d, a[k..]);
      HoldsSize(m2, d, b[k..]);
      var c := m1[d];
      if c != m2[d] {
        DifferentLength(a, b, k);
        return 0;
      }
      if c == 0 { return d + 1; }
      var same := EqualLabel(m1, m2, d + 1, c);
      assert a[k..][0] == a[k] && b[k..][0] == b[k];
      if !same { return 0; }
      assert a[k..][1..] == a[k + 1..] && b[k..][1..] == b[k + 1..];
      d := d + 1 + c;
      k := k + 1;
    }
  }

  lemma HoldsSize(mem: seq<Byte>, i: nat, n: seq<Label>)
    requires IsName(n) && HoldsAt(mem, i, n)
    ensures i < |mem|
  {
  }

  lemma DifferentLength(a: seq<Label>, b: seq<Label>, k: nat)
    requires k <= |a| && k <= |b| && IsName(a) && IsName(b)
    requires (if k == |a| then 0 else |a[k]|) != (if k == |b| then 0 else |b[k]|)
    ensures !SameName(a, b)
  {
    if k < |a| && k < |b| {
      assert !SameLabel(a[k], b[k]);
    }
  }
}
