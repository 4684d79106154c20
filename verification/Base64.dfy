/** Base64 (ext/base64/base64.cc; section 4 of RFC 4648). */
module Base64 {
  import opened Ascii

  const PAD: Byte := 61
  const NOT_FOUND: Byte := 255

  /** The k-th character of the alphabet. */
  function Digit(k: nat): Byte
    requires k < 64
  {
    if k < 26 then 65 + k else if k < 52 then 71 + k else if k < 62 then k - 4 else if k == 62 then 43 else 47
  }

  predicate IsDigit(c: Byte) { IsAlphaNum(c) || c == 43 || c == 47 }

  /** `find` in the alphabet; a failed search leaves 255 in an unsigned char. */
  function Value(c: Byte): Byte {
    if 65 <= c <= 90 then c - 65
    else if 97 <= c <= 122 then c - 71
    else if IsNum(c) then c + 4
    else if c == 43 then 62
    else if c == 47 then 63
    else NOT_FOUND
  }

  function S0(a: Byte): Byte { a / 4 }
  function S1(a: Byte, b: Byte): Byte { (a % 4) * 16 + b / 16 }
  function S2(b: Byte, c: Byte): Byte { (b % 16) * 4 + c / 64 }
  function S3(c: Byte): Byte { c % 64 }

  function O0(a: Byte, b: Byte): Byte { (a * 4 + (b / 16) % 4) % 256 }
  function O1(b: Byte, c: Byte): Byte { ((b % 16) * 16 + (c / 4) % 16) % 256 }
  function O2(c: Byte, d: Byte): Byte { ((c % 4) * 64 + d) % 256 }

  /** The four sextets of three bytes. */
  function Sextets(a: Byte, b: Byte, c: Byte): (s: seq<Byte>)
    ensures |s| == 4 && forall i :: 0 <= i < 4 ==> s[i] < 64
  {
    [S0(a), S1(a, b), S2(b, c), S3(c)]
  }

  /** The three bytes of four values, on unsigned chars. */
  function Octets(a: Byte, b: Byte, c: Byte, d: Byte): (o: seq<Byte>)
    ensures |o| == 3
  {
    [O0(a, b), O1(b, c), O2(c, d)]
  }

  function Digits(s: seq<Byte>): (r: seq<Byte>)
    requires forall i :: 0 <= i < |s| ==> s[i] < 64
    ensures |r| == |s| && forall i :: 0 <= i < |s| ==> r[i] == Digit(s[i])
  {
    if s == [] then [] else [Digit(s[0])] + Digits(s[1..])
  }

  /** The encoding, a group of three bytes at a time; the last group is padded. */
  function Enc(x: seq<Byte>): (r: seq<Byte>)
    ensures |r| == 4 * ((|x| + 2) / 3)
  {
    if x == [] then []
    else if |x| == 1 then Digits(Sextets(x[0], 0, 0))[..2] + [PAD, PAD]
    else if |x| == 2 then Digits(Sextets(x[0], x[1], 0))[..3] + [PAD]
    else Digits(Sextets(x[0], x[1], x[2])) + Enc(x[3..])
  }

  /** How many of the first `n` characters are of the alphabet, before the first that is not. */
  function Lead(s: seq<Byte>, n: nat): (k: nat)
    ensures k <= n && k <= |s| && (forall i :: 0 <= i < k ==> IsDigit(s[i])) && (k < n && k < |s| ==> !IsDigit(s[k]))
  {
    if n == 0 || s == [] || !IsDigit(s[0]) then 0 else 1 + Lead(s[1..], n - 1)
  }

  /** The decoding, four characters at a time, up to the first that is not of the alphabet; values missing
      in the last group count as 255. */
  function Dec(s: seq<Byte>): seq<Byte> {
    var k := Lead(s, 4);
    if k == 4 then Octets(Value(s[0]), Value(s[1]), Value(s[2]), Value(s[3])) + Dec(s[4..])
    else if k == 0 then []
    else LastOctets(s[..k])
  }

  function LastOctets(s: seq<Byte>): seq<Byte>
    requires 1 <= |s| <= 3
  {
    Octets(Value(s[0]), if |s| > 1 then Value(s[1]) else NOT_FOUND, if |s| > 2 then Value(s[2]) else NOT_FOUND, NOT_FOUND)[..|s| - 1]
  }

  // ---------- the alphabet ----------

  /** The alphabet of section 4 of RFC 4648 ... */
  lemma AlphabetIs(k: nat)
    requires k < 64
    ensures k < 26 ==> Digit(k) as char == UPPER[k]
    ensures 26 <= k < 52 ==> Digit(k) as char == LOWER[k - 26]
    ensures 52 <= k < 62 ==> Digit(k) as char == "0123456789"[k - 52]
    ensures 62 <= k ==> Digit(k) as char == "+/"[k - 62]
  {
  }

  /** ... and no other character is of it. */
  lemma OnlyAlphabet(c: Byte)
    ensures IsDigit(c) <==> OneOf(c, UPPER) || OneOf(c, LOWER) || OneOf(c, "0123456789") || OneOf(c, "+/")
  {
    LetterRanges(c);
  }

  /** Test vectors of section 10 of RFC 4648: f, fo, foo and foobar give Zg==, Zm8=, Zm9v and Zm9vYmFy. */
  lemma Vectors()
    ensures Enc([102]) == [90, 103, 61, 61] && Enc([102, 111]) == [90, 109, 56, 61] && Enc([102, 111, 111]) == [90, 109, 57, 118]
    ensures Enc([102, 111, 111] + [98, 97, 114]) == [90, 109, 57, 118] + [89, 109, 70, 121]
  {
    hide Enc, Sextets, Digits, Digit;
    SomeGroups();
    LastGroups(102, 111);
    OneGroup(102, 111, 111, []);
    OneGroup(98, 97, 114, []);
    OneGroup(102, 111, 111, [98, 97, 114]);
    assert [102, 111, 111] + [] == [102, 111, 111] && [98, 97, 114] + [] == [98, 97, 114];
  }

  lemma SomeGroups()
    ensures Digits(Sextets(102, 111, 111)) == [90, 109, 57, 118] && Digits(Sextets(98, 97, 114)) == [89, 109, 70, 121]
    ensures Digits(Sextets(102, 0, 0)) == [90, 103, 65, 65] && Digits(Sextets(102, 111, 0)) == [90, 109, 56, 65]
  {
    FourDigits(Sextets(102, 111, 111));
    FourDigits(Sextets(98, 97, 114));
    FourDigits(Sextets(102, 0, 0));
    FourDigits(Sextets(102, 111, 0));
  }

  lemma LastGroups(a: Byte, b: Byte)
    ensures Enc([]) == [] && Enc([a]) == Digits(Sextets(a, 0, 0))[..2] + [61, 61] && Enc([a, b]) == Digits(Sextets(a, b, 0))[..3] + [61]
  {
  }

  lemma OneGroup(a: Byte, b: Byte, c: Byte, rest: seq<Byte>)
    ensures Enc([a, b, c] + rest) == Digits(Sextets(a, b, c)) + Enc(rest)
  {
    assert ([a, b, c] + rest)[3..] == rest;
  }

  lemma FourDigits(s: seq<Byte>)
    requires |s| == 4 && forall i :: 0 <= i < 4 ==> s[i] < 64
    ensures Digits(s) == [Digit(s[0]), Digit(s[1]), Digit(s[2]), Digit(s[3])]
  {
  }

  // ---------- the round trip ----------

  lemma DigitValue(k: nat)
    requires k < 64
    ensures IsDigit(Digit(k)) && Value(Digit(k)) == k && Digit(k) != PAD
  {
  }

  lemma DigitsRead(s: seq<Byte>, i: nat)
    requires i < |s| && forall j :: 0 <= j < |s| ==> s[j] < 64
    ensures IsDigit(Digits(s)[i]) && Value(Digits(s)[i]) == s[i]
  {
    DigitValue(s[i]);
  }

  lemma Part4(x: nat, y: nat)
    requires y < 4
    ensures (x * 4 + y) / 4 == x && (x * 4 + y) % 4 == y
  {
  }

  lemma Part16(x: nat, y: nat)
    requires y < 16
    ensures (x * 16 + y) / 16 == x && (x * 16 + y) % 16 == y
  {
  }

  lemma First(a: Byte, b: Byte)
    ensures O0(S0(a), S1(a, b)) == a
  {
    Part16(a % 4, b / 16);
  }

  lemma Second(a: Byte, b: Byte, c: Byte)
    ensures O1(S1(a, b), S2(b, c)) == b
  {
    Part16(a % 4, b / 16);
    Part4(b % 16, c / 64);
  }

  lemma Third(b: Byte, c: Byte)
    ensures O2(S2(b, c), S3(c)) == c
  {
    Part4(b % 16, c / 64);
  }

  /** Four sextets give back their three bytes; two and three of them give back one and two, whatever
      is put in place of the rest. */
  lemma OctetsBack(a: Byte, b: Byte, c: Byte, y: Byte, z: Byte)
    ensures
      var s := Sextets(a, b, c);
      && Octets(s[0], s[1], s[2], s[3]) == [a, b, c]
      && Octets(s[0], s[1], s[2], z)[..2] == [a, b]
      && Octets(s[0], s[1], y, z)[..1] == [a]
  {
    hide S0, S1, S2, S3, O0, O1, O2;
    First(a, b);
    Second(a, b, c);
    Third(b, c);
  }

  /** The sextets are the digits of the group as one number to the base 64. */
  lemma GroupNumber(a: Byte, b: Byte, c: Byte)
    ensures
      var s := Sextets(a, b, c);
      ((s[0] as int * 64 + s[1]) * 64 + s[2]) * 64 + s[3] == (a as int * 256 + b) * 256 + c
  {
  }

  lemma {:induction false} LeadIs(s: seq<Byte>, n: nat, k: nat)
    requires k <= n && k <= |s| && (forall i :: 0 <= i < k ==> IsDigit(s[i])) && (k < n && k < |s| ==> !IsDigit(s[k]))
    ensures Lead(s, n) == if k < n then k else n
  {
  }

  /** Decoding undoes encoding. */
  lemma {:induction false} RoundTrip(x: seq<Byte>)
    ensures Dec(Enc(x)) == x
    decreases |x|
  {
    if x == [] {
    } else if |x| >= 3 {
      FullGroup(x);
      RoundTrip(x[3..]);
      assert x == x[..3] + x[3..];
    } else {
      LastGroup(x);
    }
  }

  lemma {:induction false} FullGroup(x: seq<Byte>)
    requires |x| >= 3
    ensures Dec(Enc(x)) == x[..3] + Dec(Enc(x[3..]))
  {
    hide Enc, Dec, Sextets, Octets, Digits, Value, IsDigit;
    var s := Sextets(x[0], x[1], x[2]);
    var e := Enc(x);
    EncGroup(x);
    forall i | 0 <= i < 4 ensures IsDigit(e[i]) && Value(e[i]) == s[i] {
      DigitsRead(s, i);
    }
    OctetsBack(x[0], x[1], x[2], 0, 0);
    DecGroup(e);
    assert e[4..] == Enc(x[3..]);
  }

  lemma {:induction false} LastGroup(x: seq<Byte>)
    requires 1 <= |x| <= 2
    ensures Dec(Enc(x)) == x
  {
    hide Enc, Dec, Sextets, Octets, Digits, Value, IsDigit;
    var b := if |x| == 2 then x[1] else 0;
    var s := Sextets(x[0], b, 0);
    var e := Enc(x);
    var k := |x| + 1;
    EncLast(x);
    PadIs();
    forall i | 0 <= i < k ensures IsDigit(e[i]) && Value(e[i]) == s[i] {
      DigitsRead(s, i);
    }
    OctetsBack(x[0], b, 0, NOT_FOUND, NOT_FOUND);
    DecLast(e, k);
  }

  // ---------- the loops ----------

  /** `base64_encode`. */
  method Encode(x: seq<Byte>) returns (r: seq<Byte>)
    ensures r == Enc(x)
  {
    hide Sextets, Digits, Enc;
    EncEmpty();
    r := [];
    var three := new Byte[3](_ => 0);
    var i: nat, k: nat := 0, 0;
    while k < |x|
      invariant i < 3 && i <= k <= |x| && forall j :: 0 <= j < i ==> three[j] == x[k - i + j]
      invariant r + Enc(x[k - i..]) == Enc(x)
    {
      three[i] := x[k];
      i := i + 1;
      k := k + 1;
      if i == 3 {
        EncGroup(x[k - 3..]);
        assert x[k - 3..][3..] == x[k..];
        var four := Sextets(three[0], three[1], three[2]);
        r := AddDigits(r, four, 4);
        i := 0;
      }
    }
    if i != 0 {
      ghost var rest := x[k - i..];
      var last := LastDigits(three, i, rest);
      r := r + last;
    }
  }

  /** The padded last group. */
  method LastDigits(three: array<Byte>, n: nat, ghost rest: seq<Byte>) returns (r: seq<Byte>)
    requires three.Length == 3 && 1 <= n <= 2 && |rest| == n && forall m :: 0 <= m < n ==> three[m] == rest[m]
    modifies three
    ensures r == Enc(rest)
  {
    hide Sextets, Digits, Enc;
    for j := n to 3
      invariant (forall m :: 0 <= m < n ==> three[m] == rest[m]) && forall m :: n <= m < j ==> three[m] == 0
    {
      three[j] := 0;
    }
    var four := Sextets(three[0], three[1], three[2]);
    EncLast(rest);
    r := AddDigits([], four, n + 1);
    var i := n;
    while i < 3
      invariant n <= i <= 3 && r + Pads(3 - i) == Enc(rest)
    {
      r := r + [PAD];
      i := i + 1;
    }
  }

  lemma EncEmpty()
    ensures Enc([]) == []
  {
  }

  function Pads(n: nat): seq<Byte> { if n == 0 then [] else [PAD] + Pads(n - 1) }

  lemma EncGroup(x: seq<Byte>)
    requires |x| >= 3
    ensures Enc(x) == Digits(Sextets(x[0], x[1], x[2]))[..4] + Enc(x[3..])
  {
    hide Sextets, Digits;
  }

  lemma EncLast(x: seq<Byte>)
    requires 1 <= |x| <= 2
    ensures Enc(x) == Digits(Sextets(x[0], if |x| == 2 then x[1] else 0, 0))[..|x| + 1] + Pads(3 - |x|)
  {
    hide Sextets, Digits;
    assert Pads(1) == [PAD] && Pads(2) == [PAD, PAD];
  }

  /** The loops that append the first `n` digits of a group. */
  method AddDigits(before: seq<Byte>, four: seq<Byte>, n: nat) returns (r: seq<Byte>)
    requires n <= |four| && forall i :: 0 <= i < |four| ==> four[i] < 64
    ensures r == before + Digits(four)[..n]
  {
    r := before;
    for j := 0 to n
      invariant r == before + Digits(four)[..j]
    {
      r := r + [Digit(four[j])];
    }
  }

  lemma PadIs()
    ensures !IsDigit(PAD) && Value(0) == NOT_FOUND
  {
  }

  lemma DecGroup(s: seq<Byte>)
    requires |s| >= 4 && forall i :: 0 <= i < 4 ==> IsDigit(s[i])
    ensures Dec(s) == Octets(Value(s[0]), Value(s[1]), Value(s[2]), Value(s[3])) + Dec(s[4..])
  {
    hide Octets, Value;
    LeadIs(s, 4, 4);
  }

  lemma DecLast(s: seq<Byte>, k: nat)
    requires k <= 3 && k <= |s| && (forall i :: 0 <= i < k ==> IsDigit(s[i])) && (k < |s| ==> !IsDigit(s[k]))
    ensures Dec(s) == if k == 0 then [] else LastOctets(s[..k])
  {
    hide Octets, Value;
    LeadIs(s, 4, k);
  }

  /** `base64_decode`. */
  method Decode(s: seq<Byte>) returns (r: seq<Byte>)
    ensures r == Dec(s)
  {
    hide Octets, Dec, Lead, IsDigit, Value, LastOctets;
    r := [];
    var four := new Byte[4](_ => 0);
    var i: nat, k: nat := 0, 0;
    ghost var b: nat, rest := 0, s;
    while k < |s| && s[k] != PAD && IsDigit(s[k])
      invariant i < 4 && k == b + i <= |s| && rest == s[b..]
      invariant forall j :: 0 <= j < i ==> four[j] == rest[j] && IsDigit(rest[j])
      invariant r + Dec(rest) == Dec(s)
      decreases |s| - k
    {
      assert rest[i] == s[k];
      four[i] := s[k];
      i := i + 1;
      k := k + 1;
      if i == 4 {
        DecGroup(rest);
        r := r + Octets(Value(four[0]), Value(four[1]), Value(four[2]), Value(four[3]));
        assert rest[4..] == s[k..];
        i, b, rest := 0, k, rest[4..];
      }
    }
    assert k < |s| ==> rest[i] == s[k];
    PadIs();
    DecLast(rest, i);
    if i != 0 {
      var last := LastBytes(four, i, rest[..i]);
      r := r + last;
    }
  }

  /** The last group, filled up with zero bytes that are not in the alphabet. */
  method LastBytes(four: array<Byte>, n: nat, ghost rest: seq<Byte>) returns (r: seq<Byte>)
    requires four.Length == 4 && 1 <= n <= 3 && |rest| == n && forall m :: 0 <= m < n ==> four[m] == rest[m]
    modifies four
    ensures r == LastOctets(rest)
  {
    hide Octets, Value;
    for j := n to 4
      invariant (forall m :: 0 <= m < n ==> four[m] == rest[m]) && forall m :: n <= m < j ==> four[m] == 0
    {
      four[j] := 0;
    }
    PadIs();
    var three := Octets(Value(four[0]), Value(four[1]), Value(four[2]), Value(four[3]));
    r := [];
    for j := 0 to n - 1
      invariant r == three[..j]
    {
      r := r + [three[j]];
    }
  }
}
