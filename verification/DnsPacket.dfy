/** Names inside packets: `dns_getdn` with its compression pointers (section 4.1.4 of RFC 1035) and
    `dns_skipdn`. */
module DnsPacket {
  import opened Ascii
  import opened Options
  import opened DnsNames
  import opened DnsText

  const HEADER: nat := 12
  const MAX_JUMPS: nat := 100

  /** The position a two-byte pointer at `p` leads to. */
  function Target(pkt: seq<Byte>, p: nat): nat
    requires p + 1 < |pkt|
  {
    (pkt[p] as int % 64) * 256 + pkt[p + 1] as int
  }

  /** Decompression: the labels from `p` on, following at most `hops` pointers. */
  function Expand(pkt: seq<Byte>, p: nat, hops: nat): (r: Option<seq<Label>>)
    ensures r.Some? ==> IsName(r.value)
    decreases hops, |pkt| - p
  {
    if p >= |pkt| then None
    else
      var c := pkt[p];
      if c == 0 then Some([])
      else if c >= 64 then
        if p + 1 >= |pkt| || hops == 0 || Target(pkt, p) < HEADER then None else Expand(pkt, Target(pkt, p), hops - 1)
      else if p + 1 + c > |pkt| then None
      else
        var rest := Expand(pkt, p + 1 + c, hops);
        if rest.None? then None else Some([pkt[p + 1..p + 1 + c]] + rest.value)
  }

  /** Where a name ends in the packet: after its zero byte or its first pointer. */
  datatype Walk = Stuck | Ends(at: nat, jumped: bool)

  function WalkFrom(pkt: seq<Byte>, p: nat): Walk
    decreases |pkt| - p
  {
    if p >= |pkt| then Stuck
    else if pkt[p] == 0 then Ends(p + 1, false)
    else if pkt[p] >= 64 then Ends(p + 2, true)
    else WalkFrom(pkt, p + 1 + pkt[p])
  }

  /** What `dns_skipdn` gives: it wants a byte behind a pointer. */
  function Skipped(pkt: seq<Byte>, start: nat): Option<nat> {
    match WalkFrom(pkt, start)
    case Stuck => None
    case Ends(at, jumped) => if jumped && at >= |pkt| then None else Some(at)
  }

  // ---------- how a name is written ----------

  /** A name as it stands in a packet (section 4.1.4 of RFC 1035): labels and a zero byte, or labels and a pointer
      to where the rest stands. A pointer has a 1 in one of its two top bits; RFC 1035 writes both. */
  datatype Spelling = Whole(labels: seq<Label>) | Shortened(labels: seq<Label>, mark: nat, to: nat, rest: Spelling)

  predicate IsSpelling(s: Spelling) {
    IsName(s.labels) &&
    (s.Shortened? ==> (s.mark == 64 || s.mark == 128 || s.mark == 192) && 12 <= s.to < 16384 && IsSpelling(s.rest))
  }

  function Spelled(s: Spelling): (n: seq<Label>)
    requires IsSpelling(s)
    ensures IsName(n)
  {
    if s.Whole? then s.labels else s.labels + Spelled(s.rest)
  }

  /** How many pointers lead to its end. */
  function Pointers(s: Spelling): nat { if s.Whole? then 0 else 1 + Pointers(s.rest) }

  /** Its bytes before the first pointer, and the pointer. */
  function Written(s: Spelling): (w: seq<Byte>)
    requires IsSpelling(s)
    ensures w != []
  {
    Labels(s.labels) + if s.Whole? then [0] else [s.mark + s.to / 256, s.to % 256]
  }

  predicate StandsAt(pkt: seq<Byte>, p: nat, s: Spelling)
    requires IsSpelling(s)
    decreases s
  {
    p + |Written(s)| <= |pkt| && pkt[p..p + |Written(s)|] == Written(s) && (s.Shortened? ==> StandsAt(pkt, s.to, s.rest))
  }

  /** The labels `ls` stand in the packet from `p` up to `e`. */
  predicate LabelsAt(pkt: seq<Byte>, p: nat, ls: seq<Label>, e: nat)
    requires IsName(ls)
  {
    p + |Labels(ls)| == e < |pkt| && pkt[p..e] == Labels(ls)
  }

  lemma {:induction false} FirstLabelAt(pkt: seq<Byte>, p: nat, ls: seq<Label>, e: nat)
    requires IsName(ls) && LabelsAt(pkt, p, ls, e) && ls != []
    ensures pkt[p] == |ls[0]| && 0 < pkt[p] < 64 && p + 1 + |ls[0]| <= |pkt| && pkt[p + 1..p + 1 + |ls[0]|] == ls[0]
    ensures LabelsAt(pkt, p + 1 + |ls[0]|, ls[1..], e)
  {
    var w, k := Labels(ls), |ls[0]|;
    assert IsLabel(ls[0]);
    assert w == [k] + ls[0] + Labels(ls[1..]);
    Cut(k, ls[0], Labels(ls[1..]));
    assert pkt[p..e][0] == pkt[p];
    Stretch(pkt, p, w, 1, 1 + k);
    Stretch(pkt, p, w, 1 + k, |w|);
  }

  lemma {:induction false} LabelInFront(pkt: seq<Byte>, p: nat, ls: seq<Label>, e: nat)
    requires p < |pkt| && 0 < pkt[p] < 64 && p + 1 + pkt[p] <= |pkt| && IsName(ls) && LabelsAt(pkt, p + 1 + pkt[p], ls, e)
    ensures var all := [pkt[p + 1..p + 1 + pkt[p]]] + ls; IsName(all) && LabelsAt(pkt, p, all, e)
  {
    var l := pkt[p + 1..p + 1 + pkt[p]];
    var all := [l] + ls;
    assert all[1..] == ls;
    assert pkt[p..e] == [pkt[p]] + pkt[p + 1..p + 1 + pkt[p]] + pkt[p + 1 + pkt[p]..e];
  }

  /** The walk over labels comes to the byte behind them. */
  lemma {:induction false} WalksOver(pkt: seq<Byte>, p: nat, ls: seq<Label>, e: nat)
    requires IsName(ls) && LabelsAt(pkt, p, ls, e)
    ensures WalkFrom(pkt, p) == WalkFrom(pkt, e)
    decreases |ls|
  {
    hide WalkFrom, Labels;
    if ls == [] {
      NoLabelsAt(pkt, p, ls, e);
    } else {
      FirstLabelAt(pkt, p, ls, e);
      WalkStep(pkt, p);
      WalksOver(pkt, p + 1 + |ls[0]|, ls[1..], e);
    }
  }

  lemma NoLabelsAt(pkt: seq<Byte>, p: nat, ls: seq<Label>, e: nat)
    requires IsName(ls) && LabelsAt(pkt, p, ls, e) && ls == []
    ensures e == p
  {
  }

  /** Where a walk ends, labels lead to. */
  lemma {:induction false} WalkedOver(pkt: seq<Byte>, p: nat) returns (ls: seq<Label>, e: nat)
    requires WalkFrom(pkt, p).Ends?
    ensures IsName(ls) && LabelsAt(pkt, p, ls, e) && (pkt[e] == 0 || pkt[e] >= 64)
    ensures WalkFrom(pkt, p) == if pkt[e] == 0 then Ends(e + 1, false) else Ends(e + 2, true)
    decreases |pkt| - p
  {
    if pkt[p] == 0 || pkt[p] >= 64 {
      ls, e := [], p;
    } else {
      ls, e := WalkedOver(pkt, p + 1 + pkt[p]);
      LabelInFront(pkt, p, ls, e);
      ls := [pkt[p + 1..p + 1 + pkt[p]]] + ls;
    }
  }

  /** `dns_skipdn`: the position behind labels and their zero byte, or behind labels and a pointer that is not the
      last thing in the packet. */
  method SkipDn(pkt: seq<Byte>, start: nat) returns (r: Option<nat>)
    ensures r == Skipped(pkt, start)
    ensures forall ls: seq<Label>, e: nat :: IsName(ls) && LabelsAt(pkt, start, ls, e) && pkt[e] == 0 ==> r == Some(e + 1)
    ensures forall ls: seq<Label>, e: nat :: IsName(ls) && LabelsAt(pkt, start, ls, e) && pkt[e] >= 64 ==>
      r == if e + 2 < |pkt| then Some(e + 2) else None
    ensures r.Some? ==> exists ls: seq<Label>, e: nat :: IsName(ls) && LabelsAt(pkt, start, ls, e) && (pkt[e] == 0 || pkt[e] >= 64)
  {
    hide WalkFrom;
    r := SkipLoop(pkt, start);
    forall ls: seq<Label>, e: nat | IsName(ls) && LabelsAt(pkt, start, ls, e)
      ensures WalkFrom(pkt, start) == WalkFrom(pkt, e)
    {
      WalksOver(pkt, start, ls, e);
      WalkStep(pkt, e);
    }
    forall e: nat | e < |pkt|
      ensures pkt[e] == 0 ==> WalkFrom(pkt, e) == Ends(e + 1, false)
      ensures pkt[e] >= 64 ==> WalkFrom(pkt, e) == Ends(e + 2, true)
    {
      WalkStep(pkt, e);
    }
    if r.Some? {
      ghost var ls, e := WalkedOver(pkt, start);
    }
  }

  method SkipLoop(pkt: seq<Byte>, start: nat) returns (r: Option<nat>)
    ensures r == Skipped(pkt, start)
  {
    var cur := start;
    while true
      invariant WalkFrom(pkt, cur) == WalkFrom(pkt, start)
      decreases |pkt| - cur
    {
      if cur >= |pkt| { return None; }
      var c := pkt[cur];
      cur := cur + 1;
      if c == 0 { return Some(cur); }
      if c >= 64 { return if cur + 1 >= |pkt| then None else Some(cur + 1); }
      cur := cur + c;
    }
  }

  /** A name that can be expanded advances the cursor, within the packet. */
  lemma {:induction false} ExpandWalks(pkt: seq<Byte>, p: nat, hops: nat)
    requires Expand(pkt, p, hops).Some?
    ensures WalkFrom(pkt, p).Ends? && p < WalkFrom(pkt, p).at <= |pkt|
    decreases |pkt| - p
  {
    if 0 < pkt[p] < 64 {
      ExpandWalks(pkt, p + 1 + pkt[p], hops);
    }
  }

  function Room(size: nat): nat { if size < MAX_DN then size else MAX_DN }

  /** What `dns_getdn` accepts: a name that can be expanded whose labels fit the room. The test for the
      final zero only asks for a room that is not empty, so the zero may be one byte beyond it. */
  predicate Fits(pkt: seq<Byte>, start: nat, size: nat) {
    var e := Expand(pkt, start, MAX_JUMPS);
    size > 0 && e.Some? && |Labels(e.value)| <= Room(size)
  }

  lemma {:induction false} LabelsMonotone(a: seq<Label>, b: seq<Label>)
    requires IsName(a) && IsName(b)
    ensures IsName(a + b) && |Labels(a + b)| == |Labels(a)| + |Labels(b)|
  {
    LabelsConcat(a, b);
  }

  /** The expansion from `pp` with the pointers left, put behind the labels copied so far. */
  predicate Behind(pkt: seq<Byte>, start: nat, ls: seq<Label>, pp: nat, hops: nat) {
    IsName(ls) &&
    var all := Expand(pkt, start, MAX_JUMPS);
    match Expand(pkt, pp, hops)
    case None => all == None
    case Some(rest) => all == Some(ls + rest)
  }

  lemma {:induction false} TooMuch(pkt: seq<Byte>, start: nat, ls: seq<Label>, pp: nat, hops: nat, room: nat)
    requires Behind(pkt, start, ls, pp, hops) && pp < |pkt| && 0 < pkt[pp] < 64 && |Labels(ls)| + 1 + pkt[pp] > room
    ensures var all := Expand(pkt, start, MAX_JUMPS); all.Some? ==> |Labels(all.value)| > room
  {
    var rest := Expand(pkt, pp, hops);
    if rest.Some? {
      LabelsMonotone(ls, rest.value);
    }
  }

  lemma {:induction false} BehindNext(pkt: seq<Byte>, start: nat, ls: seq<Label>, pp: nat, hops: nat)
    requires Behind(pkt, start, ls, pp, hops)
    ensures pp >= |pkt| ==> Expand(pkt, start, MAX_JUMPS) == None
    ensures pp < |pkt| && pkt[pp] == 0 ==> Expand(pkt, start, MAX_JUMPS) == Some(ls)
    ensures pp < |pkt| && pkt[pp] >= 64 ==>
      if pp + 1 >= |pkt| || hops == 0 || Target(pkt, pp) < HEADER then Expand(pkt, start, MAX_JUMPS) == None
      else Behind(pkt, start, ls, Target(pkt, pp), hops - 1)
    ensures pp < |pkt| && 0 < pkt[pp] < 64 ==>
      if pp + 1 + pkt[pp] > |pkt| then Expand(pkt, start, MAX_JUMPS) == None
      else Behind(pkt, start, ls + [pkt[pp + 1..pp + 1 + pkt[pp]]], pp + 1 + pkt[pp], hops)
  {
    if pp < |pkt| && pkt[pp] == 0 {
      assert ls + [] == ls;
    } else if pp < |pkt| && 0 < pkt[pp] < 64 && pp + 1 + pkt[pp] <= |pkt| {
      var l := pkt[pp + 1..pp + 1 + pkt[pp]];
      var rest := Expand(pkt, pp + 1 + pkt[pp], hops);
      if rest.Some? {
        assert ls + ([l] + rest.value) == ls + [l] + rest.value;
      }
    }
  }

  /** `dns_getdn`: ends on every packet, cyclic pointers included; succeeds exactly on the names that are written
      there, with pointers or without, and fit; and then gives that name and the position after it. */
  method GetDn(pkt: seq<Byte>, start: nat, size: nat) returns (r: int, dn: seq<Byte>, next: nat)
    ensures r > 0 <==> Fits(pkt, start, size)
    ensures r > 0 ==>
      var n := Expand(pkt, start, MAX_JUMPS).value;
      dn == Wire(n) && r == |dn| <= Room(size) + 1
      && WalkFrom(pkt, start).Ends? && next == WalkFrom(pkt, start).at && start < next <= |pkt|
      && (|dn| > size <==> size <= MAX_DN && |Labels(n)| == size)
    ensures r <= 0 ==> r == -1 || (r == 0 && size < MAX_DN)
    ensures Expand(pkt, start, MAX_JUMPS).Some? && !Fits(pkt, start, size) ==> r == if size < 255 then 0 else -1
    ensures forall s: Spelling :: IsSpelling(s) && StandsAt(pkt, start, s) && Pointers(s) <= 100 && !ReadableAs(pkt, start, size, s) ==>
      r == if size < 255 then 0 else -1
    ensures r > 0 <==> exists s: Spelling :: IsSpelling(s) && ReadableAs(pkt, start, size, s)
    ensures forall s: Spelling :: IsSpelling(s) && ReadableAs(pkt, start, size, s) ==> dn == Wire(Spelled(s)) && next == start + |Written(s)|
  {
    hide Expand, WalkFrom, Fits, ReadableAs;
    r, dn, next := GetDnLoop(pkt, start, size);
    if r > 0 {
      ghost var s := FitsReadable(pkt, start, size);
    }
    forall s: Spelling | IsSpelling(s) && ReadableAs(pkt, start, size, s)
      ensures Fits(pkt, start, size) && dn == Wire(Spelled(s)) && next == start + |Written(s)|
    {
      ReadableFits(pkt, start, size, s);
    }
    forall s: Spelling | IsSpelling(s) && StandsAt(pkt, start, s) && Pointers(s) <= 100 && !ReadableAs(pkt, start, size, s)
      ensures Expand(pkt, start, MAX_JUMPS).Some? && !Fits(pkt, start, size)
    {
      TooLongToFit(pkt, start, size, s);
    }
  }

  lemma {:induction false} TooLongToFit(pkt: seq<Byte>, start: nat, size: nat, s: Spelling)
    requires IsSpelling(s) && StandsAt(pkt, start, s) && Pointers(s) <= 100 && !ReadableAs(pkt, start, size, s)
    ensures Expand(pkt, start, MAX_JUMPS).Some? && !Fits(pkt, start, size)
  {
    hide Expand, Labels, StandsAt, WalkFrom;
    SpelledExpands(pkt, start, s, MAX_JUMPS);
  }

  method GetDnLoop(pkt: seq<Byte>, start: nat, size: nat) returns (r: int, dn: seq<Byte>, next: nat)
    ensures r > 0 <==> Fits(pkt, start, size)
    ensures r > 0 ==>
      var n := Expand(pkt, start, MAX_JUMPS).value;
      dn == Wire(n) && r == |dn| <= Room(size) + 1
      && WalkFrom(pkt, start).Ends? && next == WalkFrom(pkt, start).at && start < next <= |pkt|
      && (|dn| > size <==> size <= MAX_DN && |Labels(n)| == size)
    ensures r <= 0 ==> r == -1 || (r == 0 && size < MAX_DN)
    ensures Expand(pkt, start, MAX_JUMPS).Some? && !Fits(pkt, start, size) ==> r == if size < 255 then 0 else -1
  {
    hide Expand, WalkFrom, Behind;
    var pp: nat := start;
    dn, next := [], start;
    var room := Room(size);
    var noroom := if size < MAX_DN then 0 else -1;
    var jump: Option<nat> := None;
    var loops := MAX_JUMPS;
    ghost var ls: seq<Label> := [];
    ghost var hops: nat := MAX_JUMPS;
    BehindStart(pkt, start);
    while true
      invariant Behind(pkt, start, ls, pp, hops) && IsName(ls) && dn == Labels(ls) && |dn| <= room
      invariant if jump.None? then hops == loops == MAX_JUMPS else 0 <= hops < MAX_JUMPS && loops == hops + 1
      invariant if jump.None? then WalkFrom(pkt, start) == WalkFrom(pkt, pp) else WalkFrom(pkt, start) == Ends(jump.value, true)
      decreases hops, |pkt| - pp
    {
      BehindNext(pkt, start, ls, pp, hops);
      if pp >= |pkt| { return -1, dn, next; }
      WalkStep(pkt, pp);
      var c := pkt[pp];
      if c == 0 {
        if room == 0 { return noroom, dn, next; }
        dn := dn + [0];
        ExpandWalks(pkt, start, MAX_JUMPS);
        next := if jump.Some? then jump.value else pp + 1;
        return |dn|, dn, next;
      }
      if c >= 64 {
        if pp + 1 >= |pkt| { return -1, dn, next; }
        if jump.None? {
          jump := Some(pp + 2);
        } else {
          loops := loops - 1;
          if loops == 0 { return -1, dn, next; }
        }
        var t := Target(pkt, pp);
        if t < HEADER { return -1, dn, next; }
        hops := hops - 1;
        pp := t;
        continue;
      }
      if pp + 1 + c > |pkt| { return -1, dn, next; }
      if |dn| + c + 1 > room {
        TooMuch(pkt, start, ls, pp, hops, room);
        return noroom, dn, next;
      }
      ghost var l := pkt[pp + 1..pp + 1 + c];
      Longer(ls, l);
      dn := dn + [c] + pkt[pp + 1..pp + 1 + c];
      ls := ls + [l];
      pp := pp + 1 + c;
    }
  }

  lemma BehindStart(pkt: seq<Byte>, start: nat)
    ensures Behind(pkt, start, [], start, MAX_JUMPS)
  {
    var e := Expand(pkt, start, MAX_JUMPS);
    if e.Some? {
      assert [] + e.value == e.value;
    }
  }

  lemma WalkStep(pkt: seq<Byte>, p: nat)
    requires p < |pkt|
    ensures pkt[p] == 0 ==> WalkFrom(pkt, p) == Ends(p + 1, false)
    ensures pkt[p] >= 64 ==> WalkFrom(pkt, p) == Ends(p + 2, true)
    ensures 0 < pkt[p] < 64 ==> WalkFrom(pkt, p) == WalkFrom(pkt, p + 1 + pkt[p])
  {
  }

  /** The bound on pointers only cuts names off: it never changes the name found. */
  lemma {:induction false} MoreHops(pkt: seq<Byte>, p: nat, hops: nat, more: nat)
    requires Expand(pkt, p, hops).Some? && hops <= more
    ensures Expand(pkt, p, more) == Expand(pkt, p, hops)
    decreases hops, |pkt| - p
  {
    if pkt[p] >= 64 {
      MoreHops(pkt, Target(pkt, p), hops - 1, more - 1);
    } else if pkt[p] > 0 {
      MoreHops(pkt, p + 1 + pkt[p], hops, more);
    }
  }

  /** Where `dns_getdn` succeeds, `dns_skipdn` stops at the same place, unless the packet ends with the
      name's pointer; then it fails. */
  lemma {:induction false} SkipAgrees(pkt: seq<Byte>, start: nat, size: nat)
    requires Fits(pkt, start, size)
    ensures
      var w := WalkFrom(pkt, start);
      w.Ends? && (Skipped(pkt, start) == Some(w.at) <==> !(w.jumped && w.at == |pkt|))
  {
    ExpandWalks(pkt, start, MAX_JUMPS);
  }

  // ---------- what is written is what is read ----------

  /** Labels in a packet are in front of whatever stands behind them. */
  lemma {:induction false} ExpandsBehind(pkt: seq<Byte>, p: nat, ls: seq<Label>, e: nat, hops: nat, rest: seq<Label>)
    requires IsName(ls) && LabelsAt(pkt, p, ls, e) && Expand(pkt, e, hops) == Some(rest)
    ensures Expand(pkt, p, hops) == Some(ls + rest)
    decreases |ls|
  {
    hide Labels;
    if ls == [] {
      NoLabelsAt(pkt, p, ls, e);
      assert ls + rest == rest;
    } else {
      FirstLabelAt(pkt, p, ls, e);
      ExpandsBehind(pkt, p + 1 + |ls[0]|, ls[1..], e, hops, rest);
      assert [ls[0]] + (ls[1..] + rest) == ls + rest;
    }
  }

  lemma {:induction false} PartsAt(pkt: seq<Byte>, p: nat, s: Spelling)
    requires IsSpelling(s) && StandsAt(pkt, p, s)
    ensures var e := p + |Labels(s.labels)|;
            LabelsAt(pkt, p, s.labels, e)
            && if s.Whole? then pkt[e] == 0 && p + |Written(s)| == e + 1
               else e + 1 < |pkt| && pkt[e] == s.mark + s.to / 256 && pkt[e + 1] == s.to % 256 && p + |Written(s)| == e + 2
  {
    hide Labels, IsName;
    var w, l := Written(s), |Labels(s.labels)|;
    assert w[..l] == Labels(s.labels) && pkt[p..p + |w|][l] == pkt[p + l];
    Stretch(pkt, p, w, 0, l);
    if s.Shortened? {
      assert pkt[p..p + |w|][l + 1] == pkt[p + l + 1];
    }
  }

  /** The two bytes of a pointer lead to where they say. */
  lemma TargetIs(pkt: seq<Byte>, e: nat, mark: nat, to: nat)
    requires e + 1 < |pkt| && (mark == 64 || mark == 128 || mark == 192) && to < 16384
    requires pkt[e] == mark + to / 256 && pkt[e + 1] == to % 256
    ensures Target(pkt, e) == to && pkt[e] >= 64
  {
  }

  /** A name that is written in a packet, behind any chain of pointers that is not too long, is the name found. */
  lemma {:induction false} SpelledExpands(pkt: seq<Byte>, p: nat, s: Spelling, hops: nat)
    requires IsSpelling(s) && StandsAt(pkt, p, s) && Pointers(s) <= hops
    ensures Expand(pkt, p, hops) == Some(Spelled(s)) && WalkFrom(pkt, p) == Ends(p + |Written(s)|, s.Shortened?)
    decreases s
  {
    hide Labels, Written, WalkFrom;
    var e := p + |Labels(s.labels)|;
    PartsAt(pkt, p, s);
    WalksOver(pkt, p, s.labels, e);
    WalkStep(pkt, e);
    if s.Whole? {
      ExpandsBehind(pkt, p, s.labels, e, hops, []);
      assert s.labels + [] == s.labels;
    } else {
      TargetIs(pkt, e, s.mark, s.to);
      SpelledExpands(pkt, s.to, s.rest, hops - 1);
      ExpandsBehind(pkt, p, s.labels, e, hops, Spelled(s.rest));
    }
  }

  /** The mark of a byte that starts a pointer. */
  function MarkOf(c: Byte): nat { if c < 128 then 64 else if c < 192 then 128 else 192 }

  lemma {:induction false} MoreLabels(l: Label, s: Spelling)
    requires IsSpelling(s) && IsLabel(l)
    ensures var t := s.(labels := [l] + s.labels);
            IsSpelling(t) && Written(t) == [|l|] + l + Written(s) && Pointers(t) == Pointers(s) && Spelled(t) == [l] + Spelled(s)
  {
    var t := s.(labels := [l] + s.labels);
    assert t.labels[1..] == s.labels;
    if s.Shortened? {
      assert [l] + s.labels + Spelled(s.rest) == [l] + (s.labels + Spelled(s.rest));
    }
    assert Labels(t.labels) == [|l|] + l + Labels(s.labels);
    assert [|l|] + l + Labels(s.labels) + Written(s)[|Labels(s.labels)|..] == [|l|] + l + Written(s);
  }

  lemma {:induction false} InFront(pkt: seq<Byte>, p: nat, s: Spelling) returns (t: Spelling)
    requires p < |pkt| && 0 < pkt[p] < 64 && p + 1 + pkt[p] <= |pkt| && IsSpelling(s) && StandsAt(pkt, p + 1 + pkt[p], s)
    ensures IsSpelling(t) && StandsAt(pkt, p, t) && Pointers(t) == Pointers(s)
    ensures Spelled(t) == [pkt[p + 1..p + 1 + pkt[p]]] + Spelled(s)
  {
    hide Spelled, Written, IsSpelling, Pointers;
    var l := pkt[p + 1..p + 1 + pkt[p]];
    t := s.(labels := [l] + s.labels);
    MoreLabels(l, s);
    var q, n := p + 1 + pkt[p], |Written(s)|;
    assert pkt[p..q + n] == [pkt[p]] + pkt[p + 1..q] + pkt[q..q + n];
  }

  /** Whatever name is found is written there. */
  lemma {:induction false} ExpandsSpelled(pkt: seq<Byte>, p: nat, hops: nat) returns (s: Spelling)
    requires Expand(pkt, p, hops).Some?
    ensures IsSpelling(s) && StandsAt(pkt, p, s) && Pointers(s) <= hops && Spelled(s) == Expand(pkt, p, hops).value
    decreases hops, |pkt| - p
  {
    hide Spelled;
    if pkt[p] == 0 {
      s := Whole([]);
      SpelledNothing(s);
      assert pkt[p..p + 1] == [0];
    } else if pkt[p] >= 64 {
      var rest := ExpandsSpelled(pkt, Target(pkt, p), hops - 1);
      s := PointerTo(pkt, p, rest);
    } else {
      var rest := ExpandsSpelled(pkt, p + 1 + pkt[p], hops);
      s := InFront(pkt, p, rest);
    }
  }

  lemma SpelledNothing(s: Spelling)
    requires s == Whole([])
    ensures IsSpelling(s) && Spelled(s) == [] && Written(s) == [0]
  {
  }

  lemma {:induction false} PointerTo(pkt: seq<Byte>, p: nat, rest: Spelling) returns (s: Spelling)
    requires p + 1 < |pkt| && pkt[p] >= 64 && Target(pkt, p) >= 12 && IsSpelling(rest) && StandsAt(pkt, Target(pkt, p), rest)
    ensures IsSpelling(s) && StandsAt(pkt, p, s) && Pointers(s) == Pointers(rest) + 1 && Spelled(s) == Spelled(rest)
  {
    s := Shortened([], MarkOf(pkt[p]), Target(pkt, p), rest);
    assert [] + Spelled(rest) == Spelled(rest);
    assert Written(s) == [pkt[p], pkt[p + 1]];
    assert pkt[p..p + 2] == [pkt[p], pkt[p + 1]];
  }

  /** A name written at `start` with at most 100 pointers, whose labels fit the room. */
  predicate ReadableAs(pkt: seq<Byte>, start: nat, size: nat, s: Spelling) {
    IsSpelling(s) && StandsAt(pkt, start, s) && Pointers(s) <= 100
    && size > 0 && |Labels(Spelled(s))| <= if size < 255 then size else 255
  }

  lemma {:induction false} ReadableFits(pkt: seq<Byte>, start: nat, size: nat, s: Spelling)
    requires ReadableAs(pkt, start, size, s)
    ensures Fits(pkt, start, size) && Expand(pkt, start, MAX_JUMPS) == Some(Spelled(s))
    ensures WalkFrom(pkt, start) == Ends(start + |Written(s)|, s.Shortened?)
  {
    hide Expand, Labels, StandsAt, WalkFrom;
    SpelledExpands(pkt, start, s, MAX_JUMPS);
  }

  lemma {:induction false} FitsReadable(pkt: seq<Byte>, start: nat, size: nat) returns (s: Spelling)
    requires Fits(pkt, start, size)
    ensures IsSpelling(s) && ReadableAs(pkt, start, size, s)
  {
    hide Expand, Labels, StandsAt;
    s := ExpandsSpelled(pkt, start, MAX_JUMPS);
  }

  // ---------- the room for the final zero ----------

  /** Labels of the given sizes, all of their bytes `b`, as they stand in a packet. */
  function Repeated(b: Byte, n: nat): (l: seq<Byte>)
    ensures |l| == n && forall i :: 0 <= i < n ==> l[i] == b
  {
    if n == 0 then [] else [b] + Repeated(b, n - 1)
  }

  /** A packet with nothing but a header and a name. */
  function NamePacket(n: seq<Label>): seq<Byte>
    requires IsName(n)
  {
    Repeated(0, HEADER) + Wire(n)
  }

  /** A name without pointers expands to itself. */
  lemma {:induction false} PlainExpands(pkt: seq<Byte>, p: nat, n: seq<Label>, hops: nat)
    requires IsName(n) && HoldsAt(pkt, p, n)
    ensures Expand(pkt, p, hops) == Some(n)
    decreases |n|
  {
    HoldsNext(pkt, p, n);
    HoldsSize(pkt, p, n);
    if n != [] {
      PlainExpands(pkt, p + 1 + |n[0]|, n[1..], hops);
      assert n == [n[0]] + n[1..];
    }
  }

  lemma {:induction false} PacketHolds(n: seq<Label>)
    requires IsName(n)
    ensures HoldsAt(NamePacket(n), HEADER, n)
  {
  }

  /** A name whose labels take exactly `size` bytes, from two on. */
  function NameOfSize(size: nat): (n: seq<Label>)
    requires size >= 2
    ensures IsName(n) && |Labels(n)| == size
    decreases size
  {
    if size <= 64 then
      var n := [Repeated(97, size - 1)];
      assert n[1..] == [];
      n
    else
      var first := if size == 65 then 62 else 63;
      var n := [Repeated(97, first)] + NameOfSize(size - 1 - first);
      assert n[1..] == NameOfSize(size - 1 - first);
      n
  }

  /** The result overruns the buffer it is written to. */
  ghost predicate Overruns(pkt: seq<Byte>, start: nat, size: nat) {
    Fits(pkt, start, size) && |Wire(Expand(pkt, start, MAX_JUMPS).value)| > size
  }

  /** For every size from 2 to 255 some packet overruns the buffer by one byte, the 255 of all callers
      included. */
  lemma {:induction false} OverrunAt(size: nat) returns (pkt: seq<Byte>)
    requires 2 <= size <= MAX_DN
    ensures Overruns(pkt, HEADER, size) && |Wire(Expand(pkt, HEADER, MAX_JUMPS).value)| == size + 1
  {
    var n := NameOfSize(size);
    pkt := NamePacket(n);
    PacketHolds(n);
    PlainExpands(pkt, HEADER, n, MAX_JUMPS);
  }

  /** Results stay inside the buffer for every packet if and only if the size is at most 1 or more than 255. */
  lemma {:induction false} RoomIsEnough(size: nat)
    ensures (forall pkt: seq<Byte>, start: nat :: !Overruns(pkt, start, size)) <==> size <= 1 || size > MAX_DN
  {
    if size <= 1 || size > MAX_DN {
      forall pkt: seq<Byte>, start: nat ensures !Overruns(pkt, start, size) {
        NeverOverruns(pkt, start, size);
      }
    } else {
      var pkt := OverrunAt(size);
      assert Overruns(pkt, HEADER, size);
    }
  }

  lemma {:induction false} NeverOverruns(pkt: seq<Byte>, start: nat, size: nat)
    requires size <= 1 || size > MAX_DN
    ensures !Overruns(pkt, start, size)
  {
    if Fits(pkt, start, size) && size == 1 {
      NotOneByte(Expand(pkt, start, MAX_JUMPS).value);
    }
  }

  lemma NotOneByte(n: seq<Label>)
    requires IsName(n)
    ensures |Labels(n)| != 1
  {
    if n != [] {
      assert IsLabel(n[0]);
    }
  }

  lemma {:induction false} FourLabels(a: Label, b: Label)
    requires |a| == 63 && |b| == 62
    ensures IsName([a, a, a, b]) && Labels([a, a, a, b]) == [63] + a + [63] + a + [63] + a + [62] + b
  {
    var none: seq<Label> := [];
    assert [a, a, a, b][1..] == [a, a, b] && [a, a, b][1..] == [a, b] && [a, b][1..] == [b] && [b][1..] == none;
    assert Labels([b]) == [62] + b;
    assert Labels([a, b]) == [63] + a + Labels([b]);
    assert Labels([a, a, b]) == [63] + a + Labels([a, b]);
  }

  /** The 255-byte buffer of the callers is overrun by a name of four labels. */
  lemma {:induction false} CallersOverrun() returns (pkt: seq<Byte>)
    ensures |pkt| == 268 && Overruns(pkt, HEADER, MAX_DN) && |Wire(Expand(pkt, HEADER, MAX_JUMPS).value)| == 256
    ensures pkt == Repeated(0, 12) + [63] + Repeated(97, 63) + [63] + Repeated(97, 63) + [63] + Repeated(97, 63) + [62] + Repeated(97, 62) + [0]
  {
    hide Expand, WalkFrom, Labels, Repeated;
    var a, b := Repeated(97, 63), Repeated(97, 62);
    var n := [a, a, a, b];
    FourLabels(a, b);
    pkt := NamePacket(n);
    PacketHolds(n);
    PlainExpands(pkt, HEADER, n, MAX_JUMPS);
  }
}
