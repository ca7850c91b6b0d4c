/** Opaque page cursors: base64 (section 4 and section 5 of RFC 4648) of a name or of a position. */
module Cursors {
  import opened Common

  /** A string of bytes. */
  predicate IsBytes(s: string) {
    forall i :: 0 <= i < |s| ==> s[i] as int < 256
  }

  /** The standard alphabet is used with padding, the URL-safe one without. */
  datatype Alphabet = Padded | RawUrl

  function Letter(a: Alphabet, v: nat): (c: char)
    requires v < 64
    ensures ValueOf(a, c) == Some(v) && c != '\r' && c != '\n' && c != '='
  {
    if v < 26 then ('A' as int + v) as char
    else if v < 52 then ('a' as int + v - 26) as char
    else if v < 62 then ('0' as int + v - 52) as char
    else if v == 62 then if a.Padded? then '+' else '-'
    else if a.Padded? then '/' else '_'
  }

  function ValueOf(a: Alphabet, c: char): (v: Option<nat>)
    ensures v.Some? ==> v.value < 64
  {
    if 'A' <= c <= 'Z' then Some(c as int - 'A' as int)
    else if 'a' <= c <= 'z' then Some(c as int - 'a' as int + 26)
    else if '0' <= c <= '9' then Some(c as int - '0' as int + 52)
    else if c == (if a.Padded? then '+' else '-') then Some(62)
    else if c == (if a.Padded? then '/' else '_') then Some(63)
    else None
  }

  // The four sextets of three bytes, and back.

  function S0(b: nat): (v: nat) requires b < 256 ensures v < 64 { b / 4 }
  function S1(b: nat, c: nat): (v: nat) requires b < 256 && c < 256 ensures v < 64 { b % 4 * 16 + c / 16 }
  function S2(c: nat, d: nat): (v: nat) requires c < 256 && d < 256 ensures v < 64 { c % 16 * 4 + d / 64 }
  function S3(d: nat): (v: nat) requires d < 256 ensures v < 64 { d % 64 }

  function B0(v0: nat, v1: nat): (b: nat) requires v0 < 64 && v1 < 64 ensures b < 256 { v0 * 4 + v1 / 16 }
  function B1(v1: nat, v2: nat): (b: nat) requires v1 < 64 && v2 < 64 ensures b < 256 { v1 % 16 * 16 + v2 / 4 }
  function B2(v2: nat, v3: nat): (b: nat) requires v2 < 64 && v3 < 64 ensures b < 256 { v2 % 4 * 64 + v3 }

  lemma Recombine(b: nat, c: nat, d: nat)
    requires b < 256 && c < 256 && d < 256
    ensures B0(S0(b), S1(b, c)) == b && B1(S1(b, c), S2(c, d)) == c && B2(S2(c, d), S3(d)) == d
  {
  }

  /** The last group may be short: the missing bytes count as zero and their letters are padding. */
  function Encode(a: Alphabet, s: string): string
    requires IsBytes(s)
  {
    if |s| == 0 then ""
    else if |s| == 1 then
      var b := s[0] as int;
      [Letter(a, S0(b)), Letter(a, S1(b, 0))] + if a.Padded? then "==" else ""
    else if |s| == 2 then
      var b, c := s[0] as int, s[1] as int;
      [Letter(a, S0(b)), Letter(a, S1(b, c)), Letter(a, S2(c, 0))] + if a.Padded? then "=" else ""
    else
      Quad(a, s[0] as int, s[1] as int, s[2] as int) + Encode(a, s[3..])
  }

  function Quad(a: Alphabet, b: nat, c: nat, d: nat): (q: string)
    requires b < 256 && c < 256 && d < 256
    ensures |q| == 4
  {
    [Letter(a, S0(b)), Letter(a, S1(b, c)), Letter(a, S2(c, d)), Letter(a, S3(d))]
  }

  function Byte(v: nat): char
    requires v < 256
  {
    v as char
  }

  /** Line breaks are skipped; anything else outside the alphabet is an error. */
  function Decode(a: Alphabet, text: string): Option<string> {
    DecodeGroups(a, Unbroken(text))
  }

  function Unbroken(text: string): string {
    if text == "" then ""
    else if text[0] == '\r' || text[0] == '\n' then Unbroken(text[1..])
    else [text[0]] + Unbroken(text[1..])
  }

  function DecodeGroups(a: Alphabet, s: string): Option<string> {
    if s == "" then Some("")
    else if |s| < 2 || ValueOf(a, s[0]).None? || ValueOf(a, s[1]).None? then None
    else
      var v0, v1 := ValueOf(a, s[0]).value, ValueOf(a, s[1]).value;
      var first := Byte(B0(v0, v1));
      if s[2..] == (if a.Padded? then "==" else "") then Some([first])
      else if |s| < 3 || ValueOf(a, s[2]).None? then None
      else
        var v2 := ValueOf(a, s[2]).value;
        var second := Byte(B1(v1, v2));
        if s[3..] == (if a.Padded? then "=" else "") then Some([first, second])
        else if |s| < 4 || ValueOf(a, s[3]).None? then None
        else
          match DecodeGroups(a, s[4..])
          case None => None
          case Some(rest) => Some([first, second, Byte(B2(v2, ValueOf(a, s[3]).value))] + rest)
  }

  /** Decoding undoes encoding. */
  lemma {:induction false} DecodeEncode(a: Alphabet, s: string)
    requires IsBytes(s)
    ensures Decode(a, Encode(a, s)) == Some(s)
  {
    EncodeUnbroken(a, s);
    GroupsRoundTrip(a, s);
  }

  lemma {:induction false} UnbrokenWhole(text: string)
    requires forall i :: 0 <= i < |text| ==> text[i] != '\r' && text[i] != '\n'
    ensures Unbroken(text) == text
  {
    if text != "" {
      UnbrokenWhole(text[1..]);
    }
  }

  lemma {:induction false} EncodeHasNoBreaks(a: Alphabet, s: string)
    requires IsBytes(s)
    ensures forall i :: 0 <= i < |Encode(a, s)| ==> Encode(a, s)[i] != '\r' && Encode(a, s)[i] != '\n'
  {
    if |s| >= 3 {
      EncodeHasNoBreaks(a, s[3..]);
    }
  }

  lemma EncodeUnbroken(a: Alphabet, s: string)
    requires IsBytes(s)
    ensures Unbroken(Encode(a, s)) == Encode(a, s)
  {
    EncodeHasNoBreaks(a, s);
    UnbrokenWhole(Encode(a, s));
  }

  lemma {:induction false} GroupsRoundTrip(a: Alphabet, s: string)
    requires IsBytes(s)
    ensures DecodeGroups(a, Encode(a, s)) == Some(s)
  {
    if |s| >= 3 {
      GroupsRoundTrip(a, s[3..]);
      GroupRoundTrip(a, s);
    } else {
      ShortGroupRoundTrip(a, s);
    }
  }

  lemma GroupRoundTrip(a: Alphabet, s: string)
    requires IsBytes(s) && |s| >= 3 && DecodeGroups(a, Encode(a, s[3..])) == Some(s[3..])
    ensures DecodeGroups(a, Encode(a, s)) == Some(s)
  {
    EncodeGroup(a, s);
    QuadRoundTrip(a, s[0] as int, s[1] as int, s[2] as int, Encode(a, s[3..]), s[3..]);
    assert s == [s[0], s[1], s[2]] + s[3..];
  }

  lemma EncodeGroup(a: Alphabet, s: string)
    requires IsBytes(s) && |s| >= 3
    ensures Encode(a, s) == Quad(a, s[0] as int, s[1] as int, s[2] as int) + Encode(a, s[3..])
  {
  }

  lemma ShortGroupRoundTrip(a: Alphabet, s: string)
    requires IsBytes(s) && |s| < 3
    ensures DecodeGroups(a, Encode(a, s)) == Some(s)
  {
    if |s| == 2 {
      assert s == [Byte(s[0] as int), Byte(s[1] as int)];
      PairRoundTrip(a, s[0] as int, s[1] as int);
    } else if |s| == 1 {
      assert s == [Byte(s[0] as int)];
      SingleRoundTrip(a, s[0] as int);
    }
  }

  /** One full group of letters with known values, then the rest. */
  lemma DecodeQuad(a: Alphabet, q: string, v0: nat, v1: nat, v2: nat, v3: nat, rest: string, tail: string)
    requires |q| == 4 && ValueOf(a, q[0]) == Some(v0) && ValueOf(a, q[1]) == Some(v1)
    requires ValueOf(a, q[2]) == Some(v2) && ValueOf(a, q[3]) == Some(v3) && q[2] != '=' && q[3] != '='
    requires DecodeGroups(a, rest) == Some(tail)
    ensures DecodeGroups(a, q + rest) == Some([Byte(B0(v0, v1)), Byte(B1(v1, v2)), Byte(B2(v2, v3))] + tail)
  {
    var text := q + rest;
    assert text[4..] == rest && text[0] == q[0] && text[1] == q[1] && text[2] == q[2] && text[3] == q[3];
    assert text[2..][0] == q[2] && text[3..][0] == q[3];
  }

  lemma DecodePair(a: Alphabet, q: string, v0: nat, v1: nat, v2: nat)
    requires |q| == 3 && ValueOf(a, q[0]) == Some(v0) && ValueOf(a, q[1]) == Some(v1) && ValueOf(a, q[2]) == Some(v2)
    requires q[2] != '='
    ensures DecodeGroups(a, q + if a.Padded? then "=" else "") == Some([Byte(B0(v0, v1)), Byte(B1(v1, v2))])
  {
    var pad := if a.Padded? then "=" else "";
    var text := q + pad;
    assert text[3..] == pad && text[0] == q[0] && text[1] == q[1] && text[2] == q[2];
    assert text[2..][0] == q[2];
  }

  lemma DecodeSingle(a: Alphabet, q: string, v0: nat, v1: nat)
    requires |q| == 2 && ValueOf(a, q[0]) == Some(v0) && ValueOf(a, q[1]) == Some(v1)
    ensures DecodeGroups(a, q + if a.Padded? then "==" else "") == Some([Byte(B0(v0, v1))])
  {
    var pad := if a.Padded? then "==" else "";
    var text := q + pad;
    assert text[2..] == pad && text[0] == q[0] && text[1] == q[1];
  }

  lemma QuadRoundTrip(a: Alphabet, b: nat, c: nat, d: nat, rest: string, tail: string)
    requires b < 256 && c < 256 && d < 256 && DecodeGroups(a, rest) == Some(tail)
    ensures DecodeGroups(a, Quad(a, b, c, d) + rest) == Some([Byte(b), Byte(c), Byte(d)] + tail)
  {
    DecodeQuad(a, Quad(a, b, c, d), S0(b), S1(b, c), S2(c, d), S3(d), rest, tail);
    Recombine(b, c, d);
  }

  lemma PairRoundTrip(a: Alphabet, b: nat, c: nat)
    requires b < 256 && c < 256
    ensures DecodeGroups(a, Encode(a, [Byte(b), Byte(c)])) == Some([Byte(b), Byte(c)])
  {
    DecodePair(a, [Letter(a, S0(b)), Letter(a, S1(b, c)), Letter(a, S2(c, 0))], S0(b), S1(b, c), S2(c, 0));
    Recombine(b, c, 0);
  }

  lemma SingleRoundTrip(a: Alphabet, b: nat)
    requires b < 256
    ensures DecodeGroups(a, Encode(a, [Byte(b)])) == Some([Byte(b)])
  {
    var s := [Byte(b)];
    var q := [Letter(a, S0(b)), Letter(a, S1(b, 0))];
    assert s[0] as int == b;
    assert Encode(a, s) == q + if a.Padded? then "==" else "";
    assert B0(S0(b), S1(b, 0)) == b by {
      Recombine(b, 0, 0);
    }
    DecodeSingle(a, q, S0(b), S1(b, 0));
  }

  // ---- decimal numbers ----

  const MAX_INT: int := 0x7fff_ffff_ffff_ffff

  function Itoa(n: nat): string {
    if n < 10 then [Digit(n)] else Itoa(n / 10) + [Digit(n % 10)]
  }

  function Digit(n: nat): (c: char)
    requires n < 10
    ensures '0' <= c <= '9' && c as int == '0' as int + n
  {
    ('0' as int + n) as char
  }

  predicate AllDigits(s: string) {
    s != "" && forall i :: 0 <= i < |s| ==> '0' <= s[i] <= '9'
  }

  function Value(s: string): nat
    requires forall i :: 0 <= i < |s| ==> '0' <= s[i] <= '9'
  {
    if s == "" then 0 else 10 * Value(s[..|s| - 1]) + (s[|s| - 1] as int - '0' as int)
  }

  /** An optional sign, then digits, within 64 bits. */
  function Atoi(s: string): Option<int> {
    var digits := if s != "" && (s[0] == '+' || s[0] == '-') then s[1..] else s;
    if !AllDigits(digits) then None
    else
      var v := if s[0] == '-' then 0 - Value(digits) else Value(digits) as int;
      if -MAX_INT - 1 <= v <= MAX_INT then Some(v) else None
  }

  lemma {:induction false} ItoaDigits(n: nat)
    ensures AllDigits(Itoa(n)) && Value(Itoa(n)) == n && IsBytes(Itoa(n))
  {
    if n < 10 {
      assert Value([Digit(n)][..0]) == 0;
    } else {
      ItoaDigits(n / 10);
      var s := Itoa(n);
      assert s[..|s| - 1] == Itoa(n / 10);
    }
  }

  lemma AtoiItoa(n: nat)
    ensures Atoi(Itoa(n)) == if n <= MAX_INT then Some(n) else None
  {
    ItoaDigits(n);
    assert Itoa(n)[0] != '+' && Itoa(n)[0] != '-';
  }

  /** A sign may precede the digits; nothing else may. */
  lemma AtoiSigned(n: nat, s: string)
    ensures Atoi("+" + Itoa(n)) == if n <= MAX_INT then Some(n) else None
    ensures Atoi("-" + Itoa(n)) == if n <= MAX_INT + 1 then Some(0 - n) else None
    ensures Atoi(s).Some? ==> AllDigits(s) || (s[0] == '+' && AllDigits(s[1..])) || (s[0] == '-' && AllDigits(s[1..]))
  {
    ItoaDigits(n);
    assert ("+" + Itoa(n))[1..] == Itoa(n) && ("-" + Itoa(n))[1..] == Itoa(n);
  }

  // ---- cursors ----

  /** A position, as the repository listing carries it. */
  function EncodeOffset(offset: nat): string {
    ItoaDigits(offset);
    Encode(Padded, Itoa(offset))
  }

  function DecodeOffset(token: string): Option<int> {
    match Decode(Padded, token)
    case None => None
    case Some(raw) => Atoi(raw)
  }

  /** A position, as the catalog carries it; a broken cursor restarts from the beginning. */
  function EncodeCatalogCursor(offset: nat): string {
    ItoaDigits(offset);
    Encode(RawUrl, Itoa(offset))
  }

  function DecodeCatalogCursor(cursor: string): int {
    match Decode(RawUrl, cursor)
    case None => 0
    case Some(raw) => match Atoi(raw) { case None => 0 case Some(n) => n }
  }

  /** Both position codecs recover every position a listing can reach. */
  lemma OffsetRoundTrip(offset: nat)
    requires offset <= MAX_INT
    ensures DecodeOffset(EncodeOffset(offset)) == Some(offset) && EncodeOffset(offset) != ""
    ensures DecodeCatalogCursor(EncodeCatalogCursor(offset)) == offset && EncodeCatalogCursor(offset) != ""
  {
    ItoaDigits(offset);
    AtoiItoa(offset);
    DecodeEncode(Padded, Itoa(offset));
    DecodeEncode(RawUrl, Itoa(offset));
  }

  /** Vectors of section 10 of RFC 4648, one where the two alphabets differ, and one of decimal. */
  lemma Vectors()
    ensures Encode(Padded, "f") == "Zg==" && Encode(RawUrl, "fo") == "Zm8" && Encode(Padded, "foob") == "Zm9vYg=="
    ensures Encode(Padded, [Byte(251), Byte(255)]) == "+/8=" && Encode(RawUrl, [Byte(251), Byte(255)]) == "-_8"
    ensures Itoa(1090) == "1090"
  {
    assert "foob"[3..] == "b" && Encode(Padded, "b") == "Yg==";
    assert Quad(Padded, 102, 111, 111) == "Zm9v";
  }
}
