/** Bytes and the character classes of ext/http_parser/http_parser.cc (strict mode). */
module Ascii {
  type Byte = x: int | 0 <= x < 256

  const HT: Byte := 9
  const LF: Byte := 10
  const CR: Byte := 13
  const SP: Byte := 32
  const HASH: Byte := 35
  const PERCENT: Byte := 37
  const STAR: Byte := 42
  const COMMA: Byte := 44
  const DASH: Byte := 45
  const DOT: Byte := 46
  const SLASH: Byte := 47
  const COLON: Byte := 58
  const SEMICOLON: Byte := 59
  const QUESTION: Byte := 63
  const AT: Byte := 64
  const LBRACKET: Byte := 91
  const RBRACKET: Byte := 93

  predicate IsNum(c: Byte) { 48 <= c <= 57 }

  /** `c | 0x20` on a byte. */
  function Lower(c: Byte): Byte {
    if (c / 32) % 2 == 0 then c + 32 else c
  }

  predicate IsAlpha(c: Byte) { 65 <= c <= 90 || 97 <= c <= 122 }

  predicate IsAlphaNum(c: Byte) { IsAlpha(c) || IsNum(c) }

  predicate IsHex(c: Byte) { IsNum(c) || 65 <= c <= 70 || 97 <= c <= 102 }

  /** - _ . ! ~ * ' ( ) */
  predicate IsMark(c: Byte) {
    c == 45 || c == 95 || c == 46 || c == 33 || c == 126 || c == 42 || c == 39 || c == 40 || c == 41
  }

  /** Alphanumerics, marks and % ; : & = + $ , */
  predicate IsUserInfoChar(c: Byte) {
    IsAlphaNum(c) || IsMark(c) || c == 37 || c == 59 || c == 58 || c == 38 || c == 61 || c == 43 || c == 36 || c == 44
  }

  predicate IsHostChar(c: Byte) { IsAlphaNum(c) || c == DOT || c == DASH }

  /** The bit table `normal_url_char`: printable ASCII except space, # and ?. */
  predicate IsUrlChar(c: Byte) { 33 <= c <= 126 && c != HASH && c != QUESTION }

  /** Visible ASCII, CR, LF, HT and bytes from 0x80. */
  predicate IsHeaderChar(c: Byte) { c == CR || c == LF || c == HT || (c > 31 && c != 127) }

  /** The lower-casing token table with the space removed; 0 stands for "not a token". */
  function Token(c: Byte): Byte {
    if 65 <= c <= 90 then c + 32
    else if 97 <= c <= 122 || IsNum(c) || IsTokenMark(c) then c
    else 0
  }

  /** ! # $ % & ' * + - . ^ _ ` | ~ */
  predicate IsTokenMark(c: Byte) {
    c == 33 || 35 <= c <= 39 || c == 42 || c == 43 || c == 45 || c == 46 || 94 <= c <= 96 || c == 124 || c == 126
  }

  /** The table `unhex`. Only its first 128 entries are written out; the rest are zero. */
  function Unhex(c: Byte): int {
    if IsNum(c) then c - 48
    else if 65 <= c <= 70 then c - 55
    else if 97 <= c <= 102 then c - 87
    else if c < 128 then -1
    else 0
  }

  /** The i-th byte of an ASCII literal. */
  predicate IsAt(s: string, i: nat, c: Byte) {
    i < |s| && s[i] as int == c
  }

  predicate OneOf(c: Byte, s: string) { c as char in s }

  const UPPER := "ABCDEFGHIJKLMNOPQRSTUVWXYZ"
  const LOWER := "abcdefghijklmnopqrstuvwxyz"

  /** The token table in full (section 3.2.6 of RFC 7230): letters, in lower case ... */
  lemma LetterTokens(i: nat)
    requires i < 26
    ensures Token(LOWER[i] as int) as char == Token(UPPER[i] as int) as char == LOWER[i]
  {
    LettersAt(i);
  }

  lemma LettersAt(i: nat)
    requires i < 26
    ensures LOWER[i] as int == 97 + i && UPPER[i] as int == 65 + i
  {
  }

  /** ... digits and marks, and nothing else. */
  lemma OtherTokens(c: Byte)
    requires !OneOf(c, LOWER) && !OneOf(c, UPPER)
    ensures Token(c) == if OneOf(c, "!#$%&'*+-.^_`|~") || OneOf(c, "0123456789") then c else 0
  {
    LetterRanges(c);
  }

  lemma LetterRanges(c: Byte)
    ensures OneOf(c, LOWER) <==> 97 <= c <= 122
    ensures OneOf(c, UPPER) <==> 65 <= c <= 90
  {
  }

  /** The bytes of a header value: HT, CR, LF, and everything from space on but DEL. */
  lemma HeaderCharIs(c: Byte)
    ensures IsHeaderChar(c) <==> c == 9 || c == 10 || c == 13 || 32 <= c <= 126 || 128 <= c
  {
  }

  /** Hexadecimal digits in either case; the table is zero behind its first half. */
  lemma UnhexIs(i: nat, c: Byte)
    requires i < 16
    ensures Unhex("0123456789abcdef"[i] as int) == Unhex("0123456789ABCDEF"[i] as int) == i
    ensures !OneOf(c, "0123456789abcdefABCDEF") ==> Unhex(c) == if c < 128 then -1 else 0
  {
  }
}
