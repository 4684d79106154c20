/** Answer sections as they are written (sections 3.2.1, 4.1.1 and 4.1.3 of RFC 1035): what is written is what the
    parsers read. */
module DnsWriter {
  import opened Ascii
  import opened Options
  import opened DnsNames
  import opened DnsText
  import opened DnsPacket
  import opened DnsRecords

  /** Numbers of two and four bytes, the most significant byte first. */
  function Put16(n: nat): seq<Byte>
    requires n < 65536
  {
    [n / 256, n % 256]
  }

  function Put32(n: nat): seq<Byte>
    requires n < 4294967296
  {
    [n / 16777216, n / 65536 % 256, n / 256 % 256, n % 256]
  }

  lemma Got16(pkt: seq<Byte>, p: nat, n: nat)
    requires p + 2 <= |pkt| && n < 65536 && pkt[p..p + 2] == Put16(n)
    ensures Get16(pkt, p) == n
  {
    assert pkt[p..p + 2][0] == pkt[p] && pkt[p..p + 2][1] == pkt[p + 1];
  }

  lemma Is16(pkt: seq<Byte>, p: nat)
    requires p + 2 <= |pkt|
    ensures Get16(pkt, p) < 65536 && pkt[p..p + 2] == Put16(Get16(pkt, p))
  {
  }

  lemma Got32(pkt: seq<Byte>, p: nat, n: nat)
    requires p + 4 <= |pkt| && n < 4294967296 && pkt[p..p + 4] == Put32(n)
    ensures Get32(pkt, p) == n
  {
    var s := pkt[p..p + 4];
    assert s[0] == pkt[p] && s[1] == pkt[p + 1] && s[2] == pkt[p + 2] && s[3] == pkt[p + 3];
    FourBytes(n);
  }

  lemma FourBytes(n: nat)
    requires n < 4294967296
    ensures n / 16777216 < 256
    ensures (n / 16777216 * 256 + n / 65536 % 256) * 65536 + (n / 256 % 256 * 256 + n % 256) == n
  {
    var d, q := n % 256, n / 256;
    var c, r := q % 256, q / 256;
    var a, b := r / 256, r % 256;
    assert n == ((a * 256 + b) * 256 + c) * 256 + d;
    assert n / 65536 == a * 256 + b && n / 16777216 == a;
  }

  lemma Is32(pkt: seq<Byte>, p: nat)
    requires p + 4 <= |pkt|
    ensures Get32(pkt, p) < 4294967296 && pkt[p..p + 4] == Put32(Get32(pkt, p))
  {
    var a, b, c, d := pkt[p] as int, pkt[p + 1] as int, pkt[p + 2] as int, pkt[p + 3] as int;
    var n := ((a * 256 + b) * 256 + c) * 256 + d;
    assert Get32(pkt, p) == n;
    assert n / 256 == (a * 256 + b) * 256 + c && n % 256 == d;
    assert n / 65536 == a * 256 + b && n / 16777216 == a;
  }

  // ---------- records ----------

  /** A resource record: its owner, four numbers, and its data. */
  datatype Rr = Rr(owner: Spelling, typ: nat, cls: nat, ttl: nat, data: seq<Byte>)

  predicate IsRr(rr: Rr) {
    IsSpelling(rr.owner) && rr.typ < 65536 && rr.cls < 65536 && rr.ttl < 4294967296 && |rr.data| < 65536
  }

  /** What follows the owner. */
  function Fields(rr: Rr): (s: seq<Byte>)
    requires IsRr(rr)
    ensures |s| == 10
  {
    Put16(rr.typ) + Put16(rr.cls) + Put32(rr.ttl) + Put16(|rr.data|)
  }

  /** Where the data starts and ends when the record stands at `p`. */
  function DataAt(p: nat, rr: Rr): nat
    requires IsRr(rr)
  {
    p + |Written(rr.owner)| + 10
  }

  function EndAt(p: nat, rr: Rr): nat
    requires IsRr(rr)
  {
    DataAt(p, rr) + |rr.data|
  }

  predicate RecordAt(pkt: seq<Byte>, p: nat, rr: Rr) {
    IsRr(rr) && ReadableAs(pkt, p, 255, rr.owner) && EndAt(p, rr) <= |pkt|
    && pkt[p + |Written(rr.owner)|..DataAt(p, rr)] == Fields(rr) && pkt[DataAt(p, rr)..EndAt(p, rr)] == rr.data
  }

  lemma {:induction false} FieldsAt(pkt: seq<Byte>, c: nat, rr: Rr)
    requires IsRr(rr) && c + 10 <= |pkt|
    ensures pkt[c..c + 10] == Fields(rr) <==>
              Get16(pkt, c) == rr.typ && Get16(pkt, c + 2) == rr.cls && Get32(pkt, c + 4) == rr.ttl && Get16(pkt, c + 8) == |rr.data|
  {
    hide Get16, Get32, Put16, Put32;
    assert pkt[c..c + 10] == pkt[c..c + 2] + pkt[c + 2..c + 4] + pkt[c + 4..c + 8] + pkt[c + 8..c + 10];
    Is16(pkt, c);
    Is16(pkt, c + 2);
    Is32(pkt, c + 4);
    Is16(pkt, c + 8);
    PutSizes(rr);
    if pkt[c..c + 10] == Fields(rr) {
      var f := Fields(rr);
      assert f[0..2] == Put16(rr.typ) && f[2..4] == Put16(rr.cls) && f[4..8] == Put32(rr.ttl) && f[8..10] == Put16(|rr.data|);
      Stretch(pkt, c, f, 0, 2);
      Stretch(pkt, c, f, 2, 4);
      Stretch(pkt, c, f, 4, 8);
      Stretch(pkt, c, f, 8, 10);
      Got16(pkt, c, rr.typ);
      Got16(pkt, c + 2, rr.cls);
      Got32(pkt, c + 4, rr.ttl);
      Got16(pkt, c + 8, |rr.data|);
    }
  }

  lemma PutSizes(rr: Rr)
    requires IsRr(rr)
    ensures |Put16(rr.typ)| == |Put16(rr.cls)| == |Put16(|rr.data|)| == 2 && |Put32(rr.ttl)| == 4
  {
  }

  /** What the parsers make of a record. */
  function RecordOf(p: nat, rr: Rr): Record
    requires IsRr(rr)
  {
    Record(Spelled(rr.owner), rr.typ, rr.cls, rr.ttl, DataAt(p, rr), EndAt(p, rr))
  }

  /** A record that is written at `p` is read there ... */
  lemma {:induction false} RecordRead(pkt: seq<Byte>, p: nat, rr: Rr)
    requires RecordAt(pkt, p, rr)
    ensures ReadRecord(pkt, p) == Some(RecordOf(p, rr))
  {
    hide Expand, WalkFrom, Get16, Get32, Fields, Put16, Put32, StandsAt, Written, Labels;
    ReadableFits(pkt, p, 255, rr.owner);
    FieldsAt(pkt, p + |Written(rr.owner)|, rr);
  }

  /** ... and whatever record is read at `p` is written there. */
  lemma {:induction false} RecordWritten(pkt: seq<Byte>, p: nat) returns (rr: Rr)
    requires ReadRecord(pkt, p).Some?
    ensures RecordAt(pkt, p, rr) && ReadRecord(pkt, p) == Some(RecordOf(p, rr))
  {
    hide Expand, WalkFrom, Get16, Get32, Fields, Put16, Put32, StandsAt, Written, Labels;
    var s := FitsReadable(pkt, p, 255);
    ReadableFits(pkt, p, 255, s);
    var r := ReadRecord(pkt, p).value;
    var c := p + |Written(s)|;
    Is16(pkt, c);
    Is16(pkt, c + 2);
    Is32(pkt, c + 4);
    Is16(pkt, c + 8);
    rr := Rr(s, r.typ, r.cls, r.ttl, pkt[r.dptr..r.dend]);
    FieldsAt(pkt, c, rr);
  }

  // ---------- answer sections ----------

  /** A record of an answer section, where it stands, and what it is for a question: an answer, an alias to follow,
      or neither. */
  datatype Part = Answer(at: nat, rr: Rr) | Alias(at: nat, rr: Rr, to: Spelling) | Other(at: nat, rr: Rr)

  /** The record is of the class and type asked for; 0 and 255 stand for any. */
  predicate Asks(typ: nat, cls: nat, rr: Rr) {
    (cls == 0 || cls == 255 || rr.cls == cls) && (typ == 0 || typ == 255 || rr.typ == typ)
  }

  /** What a record is when `name` is looked for. An alias is a CNAME record (type 5) in front of all answers whose data is
      one name. */
  predicate IsPart(pkt: seq<Byte>, typ: nat, cls: nat, name: seq<Label>, first: bool, part: Part)
    requires IsRr(part.rr)
  {
    var same := SameName(name, Spelled(part.rr.owner));
    match part
    case Answer(_, rr) => same && Asks(typ, cls, rr)
    case Alias(at, rr, to) => same && !Asks(typ, cls, rr) && first && rr.typ == 5 && IsExactly(pkt, DataAt(at, rr), to, EndAt(at, rr))
    case Other(_, rr) => !same || (!Asks(typ, cls, rr) && !(first && rr.typ == 5))
  }

  /** From `p` to `e` there is one name. */
  predicate IsExactly(pkt: seq<Byte>, p: nat, s: Spelling, e: nat) {
    ReadableAs(pkt, p, 255, s) && p + |Written(s)| == e
  }

  /** The name looked for behind a record. */
  function NameBehind(name: seq<Label>, part: Part): seq<Label> {
    if part.Alias? && IsSpelling(part.to) then Spelled(part.to) else name
  }

  /** The records `parts` stand one after the other from `p`, for the question for `name`; `first` says that no answer is in
      front of them. */
  predicate SectionAt(pkt: seq<Byte>, p: nat, typ: nat, cls: nat, name: seq<Label>, first: bool, parts: seq<Part>)
    decreases |parts|
  {
    parts == [] ||
    (parts[0].at == p && RecordAt(pkt, p, parts[0].rr) && IsPart(pkt, typ, cls, name, first, parts[0])
     && SectionAt(pkt, EndAt(p, parts[0].rr), typ, cls, NameBehind(name, parts[0]), first && !parts[0].Answer?, parts[1..]))
  }

  /** The records that answer. */
  function AnswersOf(parts: seq<Part>): (a: seq<Part>)
    ensures |a| <= |parts| && forall i :: 0 <= i < |a| ==> a[i].Answer? && a[i] in parts
  {
    if parts == [] then [] else (if parts[0].Answer? then [parts[0]] else []) + AnswersOf(parts[1..])
  }

  /** The least TTL among answers and aliases, if it is less than `bound`. */
  predicate LeastTtl(m: nat, bound: nat, parts: seq<Part>) {
    m <= bound && (forall i :: 0 <= i < |parts| && !parts[i].Other? ==> m <= parts[i].rr.ttl)
    && (m == bound || exists i :: 0 <= i < |parts| && !parts[i].Other? && parts[i].rr.ttl == m)
  }

  /** The records that the walk gives are those that were written. */
  predicate Gives(rs: seq<Record>, answers: seq<Part>) {
    |rs| == |answers| && forall i :: 0 <= i < |rs| ==> IsRr(answers[i].rr) && rs[i] == RecordOf(answers[i].at, answers[i].rr)
  }

  /** The question as the walk keeps it. */
  function Kept(typ: nat, cls: nat): Query { Query(if cls == 255 then 0 else cls, if typ == 255 then 0 else typ) }

  function ItemOf(part: Part): Item
    requires IsRr(part.rr) && (part.Alias? ==> IsSpelling(part.to))
  {
    var r := RecordOf(part.at, part.rr);
    match part
    case Answer(_, _) => Item.Taken(r)
    case Alias(_, _, to) => Followed(r, Spelled(to))
    case Other(_, _) => Passed(r)
  }

  lemma {:induction false} ReadsName(pkt: seq<Byte>, r: Record, s: Spelling)
    requires IsExactly(pkt, r.dptr, s, r.dend)
    ensures CnameTarget(pkt, r) == Some(Spelled(s))
  {
    hide Expand, WalkFrom, Labels, StandsAt, Written;
    ReadableFits(pkt, r.dptr, 255, s);
  }

  lemma {:induction false} NameOfData(pkt: seq<Byte>, r: Record) returns (s: Spelling)
    requires CnameTarget(pkt, r).Some?
    ensures IsExactly(pkt, r.dptr, s, r.dend) && CnameTarget(pkt, r) == Some(Spelled(s))
  {
    hide Expand, WalkFrom, Labels, StandsAt, Written;
    s := FitsReadable(pkt, r.dptr, 255);
    ReadableFits(pkt, r.dptr, 255, s);
  }

  /** A record in its place is taken for what it is. */
  lemma {:induction false} PartRead(pkt: seq<Byte>, typ: nat, cls: nat, name: seq<Label>, part: Part, s: Place)
    requires RecordAt(pkt, part.at, part.rr) && IsPart(pkt, typ, cls, name, s.found == 0, part)
    requires s.cur == part.at && s.want == Some(name)
    ensures part.Alias? ==> IsSpelling(part.to)
    ensures Classify(pkt, Kept(typ, cls), s) == ItemOf(part)
  {
    hide ReadRecord, CnameTarget, Spelled, StandsAt, Written, Fields, Labels, SameName;
    RecordRead(pkt, part.at, part.rr);
    if part.Alias? {
      ReadsName(pkt, RecordOf(part.at, part.rr), part.to);
    }
  }

  /** What a walk takes a record for is what stands there. */
  lemma {:induction false} PartWritten(pkt: seq<Byte>, typ: nat, cls: nat, name: seq<Label>, s: Place) returns (part: Part)
    requires s.want == Some(name) && !Classify(pkt, Kept(typ, cls), s).Broken?
    ensures part.at == s.cur && IsRr(part.rr) && RecordAt(pkt, part.at, part.rr) && IsPart(pkt, typ, cls, name, s.found == 0, part)
  {
    hide ReadRecord, CnameTarget, Spelled, StandsAt, Written, Fields, Labels, SameName;
    var rr := RecordWritten(pkt, s.cur);
    var i := Classify(pkt, Kept(typ, cls), s);
    if i.Taken? {
      part := Answer(s.cur, rr);
    } else if i.Followed? {
      var to := NameOfData(pkt, RecordOf(s.cur, rr));
      part := Alias(s.cur, rr, to);
    } else {
      part := Other(s.cur, rr);
    }
  }

  lemma NothingFound(pkt: seq<Byte>, q: Query, s: Place, parts: seq<Part>)
    requires parts == [] && s.left == 0
    ensures
      var w := WalkAll(pkt, q, s);
      w.ok && Gives(TakenOf(w.items), AnswersOf(parts)) && LeastTtl(SmallestTtl(w.items, s.ttl), s.ttl, parts)
  {
  }

  lemma FirstPart(pkt: seq<Byte>, p: nat, typ: nat, cls: nat, name: seq<Label>, first: bool, parts: seq<Part>)
    requires parts != [] && SectionAt(pkt, p, typ, cls, name, first, parts)
    ensures
      var part := parts[0];
      part.at == p && RecordAt(pkt, p, part.rr) && IsRr(part.rr) && IsPart(pkt, typ, cls, name, first, part)
      && SectionAt(pkt, EndAt(p, part.rr), typ, cls, NameBehind(name, part), first && !part.Answer?, parts[1..])
  {
  }

  lemma ItemParts(part: Part)
    requires IsRr(part.rr) && (part.Alias? ==> IsSpelling(part.to))
    ensures
      var i := ItemOf(part);
      !i.Broken? && i.r == RecordOf(part.at, part.rr) && i.r.dend == EndAt(part.at, part.rr) && i.r.ttl == part.rr.ttl
      && (i.Taken? <==> part.Answer?) && (i.Followed? <==> part.Alias?) && (i.Followed? ==> i.to == Spelled(part.to))
  {
  }

  lemma {:induction false} OneMore(part: Part, rest: seq<Part>, items: seq<Item>, bound: nat)
    requires IsRr(part.rr) && (part.Alias? ==> IsSpelling(part.to))
    requires Gives(TakenOf(items), AnswersOf(rest))
    requires
      var b := if part.Other? then bound else Min(bound, part.rr.ttl);
      LeastTtl(SmallestTtl(items, b), b, rest)
    ensures
      var more := [ItemOf(part)] + items;
      Gives(TakenOf(more), AnswersOf([part] + rest)) && LeastTtl(SmallestTtl(more, bound), bound, [part] + rest)
  {
    hide RecordOf, IsRr;
    ItemParts(part);
    OneAnswerMore(part, rest, items);
    OneTtlMore(part, rest, items, bound);
  }

  lemma {:induction false} OneAnswerMore(part: Part, rest: seq<Part>, items: seq<Item>)
    requires IsRr(part.rr) && (part.Alias? ==> IsSpelling(part.to)) && Gives(TakenOf(items), AnswersOf(rest))
    ensures Gives(TakenOf([ItemOf(part)] + items), AnswersOf([part] + rest))
  {
    hide RecordOf, IsRr;
    ItemParts(part);
    assert ([ItemOf(part)] + items)[1..] == items && ([part] + rest)[1..] == rest;
  }

  lemma {:induction false} OneTtlMore(part: Part, rest: seq<Part>, items: seq<Item>, bound: nat)
    requires IsRr(part.rr) && (part.Alias? ==> IsSpelling(part.to))
    requires
      var b := if part.Other? then bound else Min(bound, part.rr.ttl);
      LeastTtl(SmallestTtl(items, b), b, rest)
    ensures LeastTtl(SmallestTtl([ItemOf(part)] + items, bound), bound, [part] + rest)
  {
    hide RecordOf, IsRr;
    ItemParts(part);
    assert ([ItemOf(part)] + items)[1..] == items;
    var b := if part.Other? then bound else Min(bound, part.rr.ttl);
    var m := SmallestTtl(items, b);
    var all := [part] + rest;
    assert forall i :: 1 <= i < |all| ==> all[i] == rest[i - 1];
    if m != bound {
      if m == b {
        assert all[0].rr.ttl == m;
      } else {
        var i :| 0 <= i < |rest| && !rest[i].Other? && rest[i].rr.ttl == m;
        assert all[i + 1].rr.ttl == m;
      }
    }
  }

  /** A walk over a section that is written takes its answers and keeps the least TTL. */
  lemma {:induction false} SectionRead(pkt: seq<Byte>, typ: nat, cls: nat, name: seq<Label>, parts: seq<Part>, s: Place)
    requires SectionAt(pkt, s.cur, typ, cls, name, s.found == 0, parts) && s.left == |parts| && s.want == Some(name)
    ensures
      var w := WalkAll(pkt, Kept(typ, cls), s);
      w.ok && Gives(TakenOf(w.items), AnswersOf(parts)) && LeastTtl(SmallestTtl(w.items, s.ttl), s.ttl, parts)
    decreases |parts|
  {
    hide Classify, RecordAt, IsPart, RecordOf, IsRr, SectionAt;
    if parts == [] {
      NothingFound(pkt, Kept(typ, cls), s, parts);
    } else {
      var part, rest := parts[0], parts[1..];
      FirstPart(pkt, s.cur, typ, cls, name, s.found == 0, parts);
      PartRead(pkt, typ, cls, name, part, s);
      var i := ItemOf(part);
      var t := Past(s, i);
      ItemParts(part);
      SectionRead(pkt, typ, cls, t.want.value, rest, t);
      var w := WalkAll(pkt, Kept(typ, cls), t);
      assert ([i] + w.items)[1..] == w.items;
      OneMore(part, rest, w.items, s.ttl);
      assert [part] + rest == parts;
    }
  }

  /** Whatever section is walked over without an error is written there. */
  lemma {:induction false} SectionWritten(pkt: seq<Byte>, typ: nat, cls: nat, name: seq<Label>, s: Place) returns (parts: seq<Part>)
    requires s.want == Some(name) && WalkAll(pkt, Kept(typ, cls), s).ok
    ensures |parts| == s.left && SectionAt(pkt, s.cur, typ, cls, name, s.found == 0, parts)
    decreases s.left
  {
    hide Classify, RecordAt, IsPart, RecordOf, IsRr;
    if s.left == 0 {
      parts := [];
    } else {
      var part := PartWritten(pkt, typ, cls, name, s);
      PartRead(pkt, typ, cls, name, part, s);
      ItemParts(part);
      var t := Past(s, ItemOf(part));
      var rest := SectionWritten(pkt, typ, cls, t.want.value, t);
      parts := [part] + rest;
      assert parts[1..] == rest;
    }
  }

  /** The packet is a reply of these records to a question for `name` whose type and class stand at `start`. */
  predicate IsReply(pkt: seq<Byte>, start: nat, typ: nat, cls: nat, name: seq<Label>, parts: seq<Part>)
    requires |pkt| >= 12 && start + 4 <= |pkt|
  {
    typ < 65536 && cls < 65536 && |parts| < 65536 && pkt[6..8] == Put16(|parts|) && pkt[start..start + 4] == Put16(typ) + Put16(cls)
    && SectionAt(pkt, start + 4, typ, cls, name, true, parts)
  }

  lemma {:induction false} SectionHolds(pkt: seq<Byte>, p: nat, typ: nat, cls: nat, name: seq<Label>, first: bool, parts: seq<Part>)
    requires SectionAt(pkt, p, typ, cls, name, first, parts)
    ensures forall part :: part in parts ==> RecordAt(pkt, part.at, part.rr)
    decreases |parts|
  {
    hide RecordAt, IsPart, IsRr;
    if parts != [] {
      FirstPart(pkt, p, typ, cls, name, first, parts);
      SectionHolds(pkt, EndAt(p, parts[0].rr), typ, cls, NameBehind(name, parts[0]), first && !parts[0].Answer?, parts[1..]);
      assert forall part :: part in parts ==> part == parts[0] || part in parts[1..];
    }
  }

  /** The data of some records, one after the other. */
  function DataOf(answers: seq<Part>): seq<Byte> {
    if answers == [] then [] else DataOf(answers[..|answers| - 1]) + answers[|answers| - 1].rr.data
  }

  // ---------- replies as servers build them ----------

  function RecordBytes(rr: Rr): seq<Byte>
    requires IsRr(rr)
  {
    Written(rr.owner) + Fields(rr) + rr.data
  }

  function AllBytes(rrs: seq<Rr>): seq<Byte>
    requires forall i :: 0 <= i < |rrs| ==> IsRr(rrs[i])
  {
    if rrs == [] then [] else RecordBytes(rrs[0]) + AllBytes(rrs[1..])
  }

  /** Answers one after the other from `p`. */
  function PlainParts(p: nat, rrs: seq<Rr>): (parts: seq<Part>)
    requires forall i :: 0 <= i < |rrs| ==> IsRr(rrs[i])
    ensures |parts| == |rrs| && forall i :: 0 <= i < |rrs| ==> parts[i].Answer? && parts[i].rr == rrs[i]
    decreases |rrs|
  {
    if rrs == [] then [] else [Answer(p, rrs[0])] + PlainParts(EndAt(p, rrs[0]), rrs[1..])
  }

  /** A record whose owner is a pointer to the name `n` at `at`. */
  predicate PointsAt(rr: Rr, n: seq<Label>, at: nat) {
    IsRr(rr) && rr.owner == Shortened([], 192, at, Whole(n))
  }

  lemma {:induction false} OwnerBuilt(pkt: seq<Byte>, p: nat, rr: Rr, n: seq<Label>, at: nat)
    requires PointsAt(rr, n, at) && IsName(n) && HoldsAt(pkt, at, n) && |Labels(n)| <= 255
    requires p + 2 <= |pkt| && pkt[p..p + 2] == [192 + at / 256, at % 256]
    ensures ReadableAs(pkt, p, 255, rr.owner) && Written(rr.owner) == [192 + at / 256, at % 256] && Spelled(rr.owner) == n
  {
    var s := Whole(n);
    assert [] + n == n && IsSpelling(rr.owner);
    assert Spelled(s) == n && Written(s) == Wire(n);
    assert Pointers(s) == 0;
    assert StandsAt(pkt, at, s);
    assert Labels([]) == [];
    assert Written(rr.owner) == [192 + at / 256, at % 256];
  }

  lemma PointerIs(rr: Rr, n: seq<Label>, at: nat)
    requires PointsAt(rr, n, at)
    ensures 192 + at / 256 < 256 && Written(rr.owner) == [192 + at / 256, at % 256]
  {
  }

  lemma {:induction false} RecordBuilt(pkt: seq<Byte>, p: nat, rr: Rr, n: seq<Label>, at: nat)
    requires PointsAt(rr, n, at) && IsName(n) && HoldsAt(pkt, at, n) && |Labels(n)| <= 255
    requires p + |RecordBytes(rr)| <= |pkt| && pkt[p..p + |RecordBytes(rr)|] == RecordBytes(rr)
    ensures RecordAt(pkt, p, rr) && EndAt(p, rr) == p + |RecordBytes(rr)| && Spelled(rr.owner) == n
  {
    hide Written, Fields, ReadableAs, HoldsAt, Labels, Spelled, IsName, IsSpelling;
    var w, f, b := Written(rr.owner), Fields(rr), RecordBytes(rr);
    PointerIs(rr, n, at);
    assert b[0..|w|] == w && b[|w|..|w| + 10] == f && b[|w| + 10..|b|] == rr.data;
    Stretch(pkt, p, b, 0, |w|);
    Stretch(pkt, p, b, |w|, |w| + 10);
    Stretch(pkt, p, b, |w| + 10, |b|);
    OwnerBuilt(pkt, p, rr, n, at);
  }

  /** One answer in front of others. */
  lemma {:induction false} OneInFront(pkt: seq<Byte>, p: nat, typ: nat, cls: nat, name: seq<Label>, first: bool, rr: Rr, rest: seq<Part>)
    requires RecordAt(pkt, p, rr) && SameName(name, Spelled(rr.owner)) && Asks(typ, cls, rr)
    requires SectionAt(pkt, EndAt(p, rr), typ, cls, name, false, rest) && AnswersOf(rest) == rest
    ensures var parts := [Answer(p, rr)] + rest; SectionAt(pkt, p, typ, cls, name, first, parts) && AnswersOf(parts) == parts
  {
    hide RecordAt, SameName, Asks, Spelled;
    var parts := [Answer(p, rr)] + rest;
    assert parts[1..] == rest;
  }

  lemma NoPart(pkt: seq<Byte>, p: nat, typ: nat, cls: nat, name: seq<Label>, first: bool)
    ensures SectionAt(pkt, p, typ, cls, name, first, []) && AnswersOf([]) == []
  {
  }

  lemma {:induction false} AnswersBuilt(pkt: seq<Byte>, p: nat, typ: nat, cls: nat, name: seq<Label>, n: seq<Label>, at: nat, first: bool,
                                        rrs: seq<Rr>)
    requires IsName(n) && HoldsAt(pkt, at, n) && |Labels(n)| <= 255 && SameName(name, n)
    requires forall i :: 0 <= i < |rrs| ==> IsRr(rrs[i]) && PointsAt(rrs[i], n, at) && Asks(typ, cls, rrs[i])
    requires p + |AllBytes(rrs)| <= |pkt| && pkt[p..p + |AllBytes(rrs)|] == AllBytes(rrs)
    ensures SectionAt(pkt, p, typ, cls, name, first, PlainParts(p, rrs)) && AnswersOf(PlainParts(p, rrs)) == PlainParts(p, rrs)
    decreases |rrs|
  {
    hide RecordBytes, RecordAt, HoldsAt, IsName, SameName, Asks, Labels, Spelled, SectionAt, AnswersOf, IsRr;
    if rrs == [] {
      NoPart(pkt, p, typ, cls, name, first);
    } else {
      var rr, rest := rrs[0], rrs[1..];
      var b := AllBytes(rrs);
      var k := |RecordBytes(rr)|;
      assert b[0..k] == RecordBytes(rr) && b[k..] == AllBytes(rest);
      Stretch(pkt, p, b, 0, k);
      Stretch(pkt, p, b, k, |b|);
      RecordBuilt(pkt, p, rr, n, at);
      AnswersBuilt(pkt, p + k, typ, cls, name, n, at, false, rest);
      OneInFront(pkt, p, typ, cls, name, first, rr, PlainParts(p + k, rest));
    }
  }

  /** The header and the question, in front of the answers. */
  function Asking(head: seq<Byte>, name: seq<Label>, typ: nat, cls: nat): seq<Byte>
    requires IsName(name) && typ < 65536 && cls < 65536
  {
    head + Wire(name) + (Put16(typ) + Put16(cls))
  }

  lemma {:induction false} AskingIs(pkt: seq<Byte>, head: seq<Byte>, name: seq<Label>, typ: nat, cls: nat, k: nat)
    requires IsName(name) && typ < 65536 && cls < 65536 && k < 65536
    requires |head| == 12 && head[6..8] == Put16(k) && Asking(head, name, typ, cls) <= pkt
    ensures
      var start := 12 + |Wire(name)|;
      |Asking(head, name, typ, cls)| == start + 4 <= |pkt| && pkt[6..8] == Put16(k)
      && pkt[start..start + 4] == Put16(typ) + Put16(cls) && HoldsAt(pkt, 12, name)
  {
    hide Wire, Put16;
    var a, w := Asking(head, name, typ, cls), Wire(name);
    assert pkt[..|a|] == a && pkt[0..0 + |a|] == a;
    TwoSizes(typ, cls);
    assert a[6..8] == head[6..8] && a[12..12 + |w|] == w && a[12 + |w|..12 + |w| + 4] == Put16(typ) + Put16(cls);
    Stretch(pkt, 0, a, 6, 8);
    Stretch(pkt, 0, a, 12, 12 + |w|);
    Stretch(pkt, 0, a, 12 + |w|, 12 + |w| + 4);
  }

  lemma TwoSizes(a: nat, b: nat)
    requires a < 65536 && b < 65536
    ensures |Put16(a) + Put16(b)| == 4
  {
  }

  /** A reply of answers only. */
  lemma {:induction false} ReplyBuilt(head: seq<Byte>, name: seq<Label>, typ: nat, cls: nat, rrs: seq<Rr>)
    requires IsName(name) && |Labels(name)| <= 255 && typ < 65536 && cls < 65536 && |rrs| < 65536
    requires |head| == 12 && head[6..8] == Put16(|rrs|)
    requires forall i :: 0 <= i < |rrs| ==> IsRr(rrs[i]) && PointsAt(rrs[i], name, 12) && Asks(typ, cls, rrs[i])
    ensures
      var pkt := Asking(head, name, typ, cls) + AllBytes(rrs);
      var start := 12 + |Wire(name)|;
      var parts := PlainParts(start + 4, rrs);
      |pkt| >= start + 4 && IsReply(pkt, start, typ, cls, name, parts) && AnswersOf(parts) == parts
  {
    hide Asking, AllBytes, HoldsAt, Labels, SectionAt, AnswersOf, Asks, Put16, PlainParts;
    var a, b := Asking(head, name, typ, cls), AllBytes(rrs);
    var pkt := a + b;
    AskingIs(pkt, head, name, typ, cls, |rrs|);
    assert pkt[|a|..|a| + |b|] == b;
    SameAsItself(name);
    AnswersBuilt(pkt, |a|, typ, cls, name, name, 12, true, rrs);
  }

  lemma SameAsItself(n: seq<Label>)
    ensures SameName(n, n)
  {
  }

  /** A reply that leads to another name first. */
  lemma {:induction false} AliasReplyBuilt(head: seq<Byte>, name: seq<Label>, typ: nat, cls: nat, alias: Rr, n: seq<Label>, rrs: seq<Rr>)
    returns (part: Part)
    requires IsName(name) && |Labels(name)| <= 255 && typ < 65536 && cls < 65536 && |rrs| < 65535
    requires |head| == 12 && head[6..8] == Put16(|rrs| + 1)
    requires IsRr(alias) && PointsAt(alias, name, 12) && alias.typ == 5 && !Asks(typ, cls, alias)
    requires IsName(n) && |Labels(n)| <= 255 && alias.data == Wire(n)
    requires forall i :: 0 <= i < |rrs| ==> IsRr(rrs[i]) && PointsAt(rrs[i], n, 28 + |Wire(name)|) && Asks(typ, cls, rrs[i])
    ensures
      var pkt := Asking(head, name, typ, cls) + (RecordBytes(alias) + AllBytes(rrs));
      var start := 12 + |Wire(name)|;
      var parts := PlainParts(start + 4 + |RecordBytes(alias)|, rrs);
      |pkt| >= start + 4 && part.Alias? && part.rr == alias && IsReply(pkt, start, typ, cls, name, [part] + parts)
      && AnswersOf([part] + parts) == parts
  {
    hide Asking, AllBytes, RecordBytes, HoldsAt, Labels, SectionAt, AnswersOf, Asks, Put16, PlainParts, Wire;
    var a, r, b := Asking(head, name, typ, cls), RecordBytes(alias), AllBytes(rrs);
    var pkt := a + (r + b);
    AskingIs(pkt, head, name, typ, cls, |rrs| + 1);
    assert pkt[|a|..|a| + |r|] == r && pkt[|a| + |r|..|a| + |r| + |b|] == b;
    RecordBuilt(pkt, |a|, alias, name, 12);
    part := Alias(|a|, alias, Whole(n));
    DataBuilt(pkt, |a|, alias, name, 12, n);
    SameAsItself(name);
    SameAsItself(n);
    AnswersBuilt(pkt, |a| + |r|, typ, cls, n, n, |a| + 12, true, rrs);
    AliasInFront(pkt, |a|, typ, cls, name, part, PlainParts(|a| + |r|, rrs));
  }

  lemma {:induction false} DataBuilt(pkt: seq<Byte>, p: nat, rr: Rr, name: seq<Label>, at: nat, n: seq<Label>)
    requires PointsAt(rr, name, at) && RecordAt(pkt, p, rr) && IsName(n) && |Labels(n)| <= 255 && rr.data == Wire(n)
    ensures DataAt(p, rr) == p + 12 && HoldsAt(pkt, p + 12, n) && IsExactly(pkt, p + 12, Whole(n), EndAt(p, rr))
  {
    PointerIs(rr, name, at);
    var s := Whole(n);
    assert IsSpelling(s) && Written(s) == Wire(n) && Spelled(s) == n && Pointers(s) == 0;
  }

  lemma {:induction false} AliasInFront(pkt: seq<Byte>, p: nat, typ: nat, cls: nat, name: seq<Label>, part: Part, rest: seq<Part>)
    requires part.Alias? && part.at == p && RecordAt(pkt, p, part.rr) && IsPart(pkt, typ, cls, name, true, part) && IsSpelling(part.to)
    requires SectionAt(pkt, EndAt(p, part.rr), typ, cls, Spelled(part.to), true, rest) && AnswersOf(rest) == rest
    ensures SectionAt(pkt, p, typ, cls, name, true, [part] + rest) && AnswersOf([part] + rest) == rest
  {
    hide RecordAt, IsPart, Spelled, IsSpelling;
    var parts := [part] + rest;
    assert parts[1..] == rest;
  }
}
