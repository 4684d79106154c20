/** Certificate names with wildcards (ext/hostcheck/hostcheck.cc; section 6.4.3 of RFC 6125). */
module HostCheck {
  import opened Ascii
  import opened Options

  /** A C string without its final zero. */
  type Text = s: seq<Byte> | 0 !in s witness []

  /** What a pointer `i` places into a string points to. */
  function CharAt(s: Text, i: nat): Byte { if i < |s| then s[i] else 0 }

  /** `Curl_raw_toupper`. */
  function Upper(c: Byte): Byte { if 97 <= c <= 122 then c - 32 else c }

  /** Only the 26 letters have another case. */
  lemma UpperIs(i: nat, c: Byte)
    requires i < 26
    ensures Upper(LOWER[i] as int) as char == UPPER[i] && (!OneOf(c, LOWER) ==> Upper(c) == c)
  {
    LettersAt(i);
    LetterRanges(c);
  }

  /** Equality ignoring ASCII case. */
  predicate SameText(a: Text, b: Text) {
    |a| == |b| && forall i :: 0 <= i < |a| ==> Upper(a[i]) == Upper(b[i])
  }

  /** `Curl_raw_equal`. */
  method RawEqual(first: Text, second: Text) returns (same: bool)
    ensures same <==> SameText(first, second)
  {
    var i: nat := 0;
    while CharAt(first, i) != 0 && CharAt(second, i) != 0
      invariant i <= |first| && i <= |second|
      invariant forall j :: 0 <= j < i ==> Upper(first[j]) == Upper(second[j])
      decreases |first| - i
    {
      if Upper(CharAt(first, i)) != Upper(CharAt(second, i)) { break; }
      i := i + 1;
    }
    same := Upper(CharAt(first, i)) == Upper(CharAt(second, i));
  }

  /** The first `n` characters, or all. */
  function Head(s: Text, n: nat): Text { if n < |s| then s[..n] else s }

  /** `Curl_raw_nequal`. */
  method RawPrefixEqual(first: Text, second: Text, max: nat) returns (same: bool)
    ensures same <==> SameText(Head(first, max), Head(second, max))
  {
    var i: nat, left: nat := 0, max;
    while CharAt(first, i) != 0 && CharAt(second, i) != 0 && left != 0
      invariant i <= |first| && i <= |second| && i + left == max
      invariant forall j :: 0 <= j < i ==> Upper(first[j]) == Upper(second[j])
      decreases left
    {
      if Upper(CharAt(first, i)) != Upper(CharAt(second, i)) { break; }
      left := left - 1;
      i := i + 1;
    }
    if left == 0 { return true; }
    same := Upper(CharAt(first, i)) == Upper(CharAt(second, i));
  }

  /** `strchr` from place `k` on. */
  function Find(s: Text, c: Byte, k: nat): (r: Option<nat>)
    ensures r.Some? ==> k <= r.value < |s| && s[r.value] == c && forall j :: k <= j < r.value ==> s[j] != c
    ensures r.None? ==> forall j :: k <= j < |s| ==> s[j] != c
    decreases |s| - k
  {
    if k >= |s| then None else if s[k] == c then Some(k) else Find(s, c, k + 1)
  }

  const PUNY: Text := [120, 110, 45, 45]

  /** The first star at `w`, in the first label, which ends at `d`; another dot at `e`. */
  predicate StarAt(pattern: Text, w: nat, d: nat, e: nat) {
    && w < d < e < |pattern| && pattern[w] == STAR && pattern[d] == DOT && pattern[e] == DOT
    && (forall j :: 0 <= j < w ==> pattern[j] != STAR) && (forall j :: 0 <= j < d ==> pattern[j] != DOT)
  }

  /** A pattern whose first star stands in the first of at least three labels, and which does not begin
      as an internationalised name. */
  ghost predicate Eligible(pattern: Text) {
    !SameText(Head(pattern, 4), [120, 110, 45, 45]) && exists w: nat, d: nat, e: nat :: StarAt(pattern, w, d, e)
  }

  /** The pattern with `fill` in place of the first star. */
  function Filled(pattern: Text, fill: Text): Text {
    match Find(pattern, STAR, 0)
    case None => pattern
    case Some(w) => pattern[..w] + fill + pattern[w + 1..]
  }

  ghost predicate Fills(fill: Text, pattern: Text, hostname: Text) {
    fill != [] && DOT !in fill && SameText(Filled(pattern, fill), hostname)
  }

  /** What the check means. */
  ghost predicate Matches(pattern: Text, hostname: Text) {
    SameText(pattern, hostname) || (Eligible(pattern) && exists fill: Text :: Fills(fill, pattern, hostname))
  }

  /** The parts of an eligible pattern, and the first dot of the hostname. */
  predicate Parts(pattern: Text, hostname: Text, w: nat, d: nat, h: nat) {
    && w < d < |pattern| && pattern[w] == STAR && pattern[d] == DOT
    && (forall j :: 0 <= j < w ==> pattern[j] != STAR) && (forall j :: 0 <= j < d ==> pattern[j] != DOT)
    && h < |hostname| && hostname[h] == DOT && forall j :: 0 <= j < h ==> hostname[j] != DOT
  }

  /** The three comparisons of `hostmatch`. */
  predicate Compares(pattern: Text, hostname: Text, w: nat, d: nat, h: nat)
    requires Parts(pattern, hostname, w, d, h)
  {
    var n := d - (w + 1);
    && h >= d && SameText(pattern[d..], hostname[h..]) && SameText(pattern[..w], hostname[..w])
    && SameText(pattern[w + 1..d], hostname[h - n..h])
  }

  lemma {:induction false} FoundFill(pattern: Text, hostname: Text, w: nat, d: nat, h: nat)
    requires Parts(pattern, hostname, w, d, h) && Compares(pattern, hostname, w, d, h)
    ensures Fills(hostname[w..h - (d - (w + 1))], pattern, hostname)
  {
    var n := d - (w + 1);
    var fill := hostname[w..h - n];
    assert Find(pattern, STAR, 0) == Some(w);
    var f := Filled(pattern, fill);
    forall i | 0 <= i < |f| ensures Upper(f[i]) == Upper(hostname[i]) {
      if i < w {
        assert f[i] == pattern[..w][i] && hostname[i] == hostname[..w][i];
      } else if i < h - n {
        assert f[i] == fill[i - w];
      } else if i < h {
        assert f[i] == pattern[w + 1..d][i - (h - n)] && hostname[i] == hostname[h - n..h][i - (h - n)];
      } else {
        assert f[i] == pattern[d..][i - h] && hostname[i] == hostname[h..][i - h];
      }
    }
  }

  /** The characters of a filled pattern. */
  lemma FilledAt(pattern: Text, w: nat, fill: Text, i: nat)
    requires Find(pattern, STAR, 0) == Some(w) && i < |pattern| - 1 + |fill|
    ensures |Filled(pattern, fill)| == |pattern| - 1 + |fill|
    ensures Filled(pattern, fill)[i]
      == if i < w then pattern[i] else if i < w + |fill| then fill[i - w] else pattern[i - |fill| + 1]
  {
    hide Find;
    Joined(pattern[..w], fill, pattern[w + 1..], i);
  }

  lemma Joined(a: seq<Byte>, b: seq<Byte>, c: seq<Byte>, i: nat)
    requires i < |a| + |b| + |c|
    ensures (a + b + c)[i] == if i < |a| then a[i] else if i < |a| + |b| then b[i - |a|] else c[i - |a| - |b|]
  {
  }

  /** A fill puts the first dot of the pattern where the first dot of the hostname is. */
  lemma {:induction false} SameDot(pattern: Text, hostname: Text, w: nat, d: nat, h: nat, fill: Text)
    requires Parts(pattern, hostname, w, d, h) && Fills(fill, pattern, hostname)
    ensures Find(pattern, STAR, 0) == Some(w) && h == d - 1 + |fill|
  {
    var e := d - 1 + |fill|;
    FilledAt(pattern, w, fill, e);
    if h < e {
      FilledAt(pattern, w, fill, h);
    }
  }

  lemma {:induction false} FillCompares(pattern: Text, hostname: Text, w: nat, d: nat, h: nat, fill: Text)
    requires Parts(pattern, hostname, w, d, h) && Fills(fill, pattern, hostname)
    ensures Compares(pattern, hostname, w, d, h)
  {
    SameDot(pattern, hostname, w, d, h, fill);
    var f := Filled(pattern, fill);
    var n := d - (w + 1);
    FilledAt(pattern, w, fill, h);
    forall i | 0 <= i < w ensures Upper(pattern[i]) == Upper(hostname[i]) {
      FilledAt(pattern, w, fill, i);
    }
    var a, b := pattern[d..], hostname[h..];
    forall i | 0 <= i < |a| ensures Upper(a[i]) == Upper(b[i]) {
      FilledAt(pattern, w, fill, h + i);
    }
    var c, e := pattern[w + 1..d], hostname[h - n..h];
    forall i | 0 <= i < n ensures Upper(c[i]) == Upper(e[i]) {
      FilledAt(pattern, w, fill, h - n + i);
    }
  }

  /** A fill keeps the dots of the pattern, so the hostname has one. */
  lemma FillHasDot(pattern: Text, hostname: Text, w: nat, d: nat, fill: Text)
    requires w < d < |pattern| && Find(pattern, STAR, 0) == Some(w) && pattern[d] == DOT && Fills(fill, pattern, hostname)
    ensures DOT in hostname
  {
    var e := |fill| + d - 1;
    FilledAt(pattern, w, fill, e);
    assert Upper(Filled(pattern, fill)[e]) == Upper(hostname[e]);
    assert hostname[e] == DOT;
  }

  /** `hostmatch`. */
  method HostMatch(hostname: Text, pattern: Text) returns (r: bool)
    ensures r <==> if Eligible(pattern) then exists fill: Text :: Fills(fill, pattern, hostname) else SameText(pattern, hostname)
  {
    var wildcard := Find(pattern, STAR, 0);
    if wildcard == None {
      r := RawEqual(pattern, hostname);
      return;
    }
    var w := wildcard.value;
    var dot := Find(pattern, DOT, 0);
    var enabled := dot.Some? && Find(pattern, DOT, dot.value + 1).Some? && w <= dot.value;
    if enabled {
      var puny := RawPrefixEqual(pattern, PUNY, 4);
      enabled := !puny;
    }
    EligibleIs(pattern, w, dot);
    if !enabled {
      r := RawEqual(pattern, hostname);
      return;
    }
    var d := dot.value;
    r := LabelMatch(hostname, pattern, w, d);
  }

  lemma EligibleIs(pattern: Text, w: nat, dot: Option<nat>)
    requires Find(pattern, STAR, 0) == Some(w) && dot == Find(pattern, DOT, 0)
    ensures Eligible(pattern) <==>
      dot.Some? && Find(pattern, DOT, dot.value + 1).Some? && w <= dot.value && !SameText(Head(pattern, 4), Head(PUNY, 4))
  {
    assert Head(PUNY, 4) == PUNY;
    if Eligible(pattern) {
      var w': nat, d: nat, e: nat :| StarAt(pattern, w', d, e);
      assert w' == w && dot == Some(d);
    } else if dot.Some? && Find(pattern, DOT, dot.value + 1).Some? && w <= dot.value {
      assert StarAt(pattern, w, dot.value, Find(pattern, DOT, dot.value + 1).value);
    }
  }

  /** The comparison of the labels once the wildcard counts. */
  method LabelMatch(hostname: Text, pattern: Text, w: nat, d: nat) returns (r: bool)
    requires w < d && Find(pattern, STAR, 0) == Some(w) && Find(pattern, DOT, 0) == Some(d)
    ensures r <==> exists fill: Text :: Fills(fill, pattern, hostname)
  {
    hide Fills, SameText;
    NeedsDot(hostname, pattern, w, d);
    var end := Find(hostname, DOT, 0);
    if end == None { return false; }
    var h := end.value;
    var n := d - (w + 1);
    NeedsCompares(hostname, pattern, w, d, h);
    var tail := RawEqual(pattern[d..], hostname[h..]);
    if !tail { return false; }
    if h < d { return false; }
    assert Head(pattern, w) == pattern[..w] && Head(hostname, w) == hostname[..w];
    assert Head(pattern[w + 1..], n) == pattern[w + 1..d] && Head(hostname[h - n..], n) == hostname[h - n..h];
    var first := RawPrefixEqual(pattern, hostname, w);
    if !first { return false; }
    r := RawPrefixEqual(pattern[w + 1..], hostname[h - n..], n);
  }

  lemma {:induction false} NeedsDot(hostname: Text, pattern: Text, w: nat, d: nat)
    requires w < d < |pattern| && Find(pattern, STAR, 0) == Some(w) && pattern[d] == DOT
    ensures (exists fill: Text :: Fills(fill, pattern, hostname)) ==> DOT in hostname
  {
    if fill: Text :| Fills(fill, pattern, hostname) {
      FillHasDot(pattern, hostname, w, d, fill);
    }
  }

  /** There is a fill exactly when the three comparisons hold. */
  lemma {:induction false} NeedsCompares(hostname: Text, pattern: Text, w: nat, d: nat, h: nat)
    requires Parts(pattern, hostname, w, d, h)
    ensures (exists fill: Text :: Fills(fill, pattern, hostname)) <==> Compares(pattern, hostname, w, d, h)
  {
    hide Fills;
    if fill: Text :| Fills(fill, pattern, hostname) {
      FillCompares(pattern, hostname, w, d, h, fill);
    } else if Compares(pattern, hostname, w, d, h) {
      FoundFill(pattern, hostname, w, d, h);
    }
  }

  /** `Curl_cert_hostcheck`; a missing string is not modelled apart from an empty one. */
  method CertHostCheck(pattern: Text, hostname: Text) returns (r: bool)
    ensures r <==> pattern != [] && hostname != [] && Matches(pattern, hostname)
  {
    if pattern == [] || hostname == [] { return false; }
    var trivial := RawEqual(hostname, pattern);
    if trivial { return true; }
    r := HostMatch(hostname, pattern);
  }
}
