/** The unpadded URL-safe base64 of continue tokens: the alphabet of section 5 of RFC 4648, without
    padding as section 3.2 allows. Decoding follows Go's RawURLEncoding: line breaks are skipped and
    unused trailing bits are not checked. A char stands for one byte. */
module Base64Url {
  import opened Options

  predicate IsBytes(s: string) { forall i | 0 <= i < |s| :: s[i] as int < 256 }

  function Symbol(i: nat): char
    requires i < 64
  {
    if i < 26 then 'A' + i as char
    else if i < 52 then 'a' + (i - 26) as char
    else if i < 62 then '0' + (i - 52) as char
    else if i == 62 then '-' else '_'
  }

  /** The value of a symbol; 64 for a char outside the alphabet. */
  function ValueOf(c: char): (v: nat)
    ensures v <= 64 && (v < 64 ==> Symbol(v) == c)
  {
    if 'A' <= c <= 'Z' then (c - 'A') as nat
    else if 'a' <= c <= 'z' then (c - 'a') as nat + 26
    else if '0' <= c <= '9' then (c - '0') as nat + 52
    else if c == '-' then 62
    else if c == '_' then 63 else 64
  }

  lemma SymbolValue(i: nat)
    requires i < 64
    ensures ValueOf(Symbol(i)) == i && Symbol(i) != '\r' && Symbol(i) != '\n'
  {
  }

  /** The symbols of three, two and one bytes. */
  function Quad(x: char, y: char, z: char): (t: string)
    requires x as int < 256 && y as int < 256 && z as int < 256
    ensures |t| == 4
  {
    var a, b, c := x as int, y as int, z as int;
    [Symbol(a / 4), Symbol(a % 4 * 16 + b / 16), Symbol(b % 16 * 4 + c / 64), Symbol(c % 64)]
  }

  function Trio(x: char, y: char): string
    requires x as int < 256 && y as int < 256
  {
    var a, b := x as int, y as int;
    [Symbol(a / 4), Symbol(a % 4 * 16 + b / 16), Symbol(b % 16 * 4)]
  }

  function Duo(x: char): string
    requires x as int < 256
  {
    var a := x as int;
    [Symbol(a / 4), Symbol(a % 4 * 16)]
  }

  function Encode(s: string): string
    requires IsBytes(s)
  {
    if s == "" then ""
    else if |s| == 1 then Duo(s[0])
    else if |s| == 2 then Trio(s[0], s[1])
    else Quad(s[0], s[1], s[2]) + Encode(s[3..])
  }

  function WithoutLineBreaks(t: string): string {
    if t == "" then ""
    else (if t[0] == '\r' || t[0] == '\n' then "" else [t[0]]) + WithoutLineBreaks(t[1..])
  }

  function DecodeSymbols(t: string): Option<string> {
    if t == "" then Some("")
    else if |t| == 1 then None
    else
      var a, b := ValueOf(t[0]), ValueOf(t[1]);
      if a == 64 || b == 64 then None else
      var first := (a * 4 + b / 16) as char;
      if |t| == 2 then Some([first]) else
      var c := ValueOf(t[2]);
      if c == 64 then None else
      var second := (b % 16 * 16 + c / 4) as char;
      if |t| == 3 then Some([first, second]) else
      var d := ValueOf(t[3]);
      if d == 64 then None else
      var third := (c % 4 * 64 + d) as char;
      var rest := DecodeSymbols(t[4..]);
      if rest.None? then None else Some([first, second, third] + rest.value)
  }

  function Decode(t: string): Option<string> { DecodeSymbols(WithoutLineBreaks(t)) }

  predicate AllSymbols(t: string) { forall i | 0 <= i < |t| :: ValueOf(t[i]) < 64 }

  lemma GroupsUseAlphabet(x: char, y: char, z: char)
    requires x as int < 256 && y as int < 256 && z as int < 256
    ensures AllSymbols(Duo(x)) && AllSymbols(Trio(x, y)) && AllSymbols(Quad(x, y, z))
  {
    var a, b, c := x as int, y as int, z as int;
    SymbolValue(a / 4);
    SymbolValue(a % 4 * 16);
    SymbolValue(a % 4 * 16 + b / 16);
    SymbolValue(b % 16 * 4);
    SymbolValue(b % 16 * 4 + c / 64);
    SymbolValue(c % 64);
  }

  lemma {:induction false} EncodeUsesAlphabet(s: string)
    requires IsBytes(s)
    ensures AllSymbols(Encode(s)) && (s != "" ==> Encode(s) != "")
  {
    if s != "" {
      GroupsUseAlphabet(s[0], if |s| > 1 then s[1] else s[0], if |s| > 2 then s[2] else s[0]);
      if |s| >= 3 { EncodeUsesAlphabet(s[3..]); }
    }
  }

  lemma {:induction false} SymbolsHaveNoLineBreaks(t: string)
    requires AllSymbols(t)
    ensures WithoutLineBreaks(t) == t
  {
    if t != "" {
      SymbolsHaveNoLineBreaks(t[1..]);
      SymbolValue(ValueOf(t[0]));
    }
  }

  /** Three bytes through four symbols and back. */
  lemma TripleRoundTrip(a: int, b: int, c: int)
    requires 0 <= a < 256 && 0 <= b < 256 && 0 <= c < 256
    ensures (a / 4) * 4 + (a % 4 * 16 + b / 16) / 16 == a
    ensures (a % 4 * 16 + b / 16) % 16 * 16 + (b % 16 * 4 + c / 64) / 4 == b
    ensures (b % 16 * 4 + c / 64) % 4 * 64 + c % 64 == c
  {
  }

  lemma DecodeFour(w: nat, x: nat, y: nat, z: nat, rest: string)
    requires w < 64 && x < 64 && y < 64 && z < 64 && DecodeSymbols(rest).Some?
    ensures DecodeSymbols([Symbol(w), Symbol(x), Symbol(y), Symbol(z)] + rest) ==
            Some([(w * 4 + x / 16) as char, (x % 16 * 16 + y / 4) as char, (y % 4 * 64 + z) as char] + DecodeSymbols(rest).value)
  {
    var t := [Symbol(w), Symbol(x), Symbol(y), Symbol(z)] + rest;
    SymbolValue(w);
    SymbolValue(x);
    SymbolValue(y);
    SymbolValue(z);
    assert t[4..] == rest;
  }

  lemma DecodeShort(w: nat, x: nat, y: nat)
    requires w < 64 && x < 64 && y < 64
    ensures DecodeSymbols([Symbol(w), Symbol(x)]) == Some([(w * 4 + x / 16) as char])
    ensures DecodeSymbols([Symbol(w), Symbol(x), Symbol(y)]) ==
            Some([(w * 4 + x / 16) as char, (x % 16 * 16 + y / 4) as char])
  {
    SymbolValue(w);
    SymbolValue(x);
    SymbolValue(y);
  }

  lemma QuadDecodes(x: char, y: char, z: char, rest: string)
    requires x as int < 256 && y as int < 256 && z as int < 256 && DecodeSymbols(rest).Some?
    ensures DecodeSymbols(Quad(x, y, z) + rest) == Some([x, y, z] + DecodeSymbols(rest).value)
  {
    var p, q, r, s := Sextets(x as int, y as int, z as int);
    DecodeFour(p, q, r, s, rest);
  }

  /** The four symbol values of three bytes, and the bytes back from them. */
  lemma Sextets(a: nat, b: nat, c: nat) returns (p: nat, q: nat, r: nat, s: nat)
    requires a < 256 && b < 256 && c < 256
    ensures p == a / 4 && q == a % 4 * 16 + b / 16 && r == b % 16 * 4 + c / 64 && s == c % 64
    ensures p < 64 && q < 64 && r < 64 && s < 64
    ensures p * 4 + q / 16 == a && q % 16 * 16 + r / 4 == b && r % 4 * 64 + s == c
  {
    TripleRoundTrip(a, b, c);
    p, q, r, s := a / 4, a % 4 * 16 + b / 16, b % 16 * 4 + c / 64, c % 64;
  }

  lemma DuoDecodes(x: char)
    requires x as int < 256
    ensures DecodeSymbols(Duo(x)) == Some([x])
  {
    var a := x as int;
    TripleRoundTrip(a, 0, 0);
    DecodeShort(a / 4, a % 4 * 16, 0);
  }

  lemma TrioDecodes(x: char, y: char)
    requires x as int < 256 && y as int < 256
    ensures DecodeSymbols(Trio(x, y)) == Some([x, y])
  {
    var a, b := x as int, y as int;
    TripleRoundTrip(a, b, 0);
    DecodeShort(a / 4, a % 4 * 16 + b / 16, b % 16 * 4);
  }

  lemma OneRoundTrip(s: string, symbols: string)
    requires IsBytes(s) && |s| == 1 && symbols == Duo(s[0])
    ensures DecodeSymbols(symbols) == Some(s)
  {
    DuoDecodes(s[0]);
    assert s == [s[0]];
  }

  lemma TwoRoundTrip(s: string, symbols: string)
    requires IsBytes(s) && |s| == 2 && symbols == Trio(s[0], s[1])
    ensures DecodeSymbols(symbols) == Some(s)
  {
    TrioDecodes(s[0], s[1]);
    assert s == [s[0], s[1]];
  }

  lemma LongRoundTrip(s: string, tail: string, symbols: string)
    requires IsBytes(s) && |s| >= 3 && tail == s[3..] && DecodeSymbols(symbols) == Some(tail)
    ensures DecodeSymbols(Quad(s[0], s[1], s[2]) + symbols) == Some(s)
  {
    QuadDecodes(s[0], s[1], s[2], symbols);
    assert s == [s[0], s[1], s[2]] + tail;
  }

  lemma {:induction false} SymbolsRoundTrip(s: string)
    requires IsBytes(s)
    ensures DecodeSymbols(Encode(s)) == Some(s)
  {
    if |s| == 1 {
      OneRoundTrip(s, Encode(s));
    } else if |s| == 2 {
      TwoRoundTrip(s, Encode(s));
    } else if |s| >= 3 {
      SymbolsRoundTrip(s[3..]);
      LongRoundTrip(s, s[3..], Encode(s[3..]));
    }
  }

  /** Every byte string survives the round trip. */
  lemma RoundTrip(s: string)
    requires IsBytes(s)
    ensures Decode(Encode(s)) == Some(s)
  {
    EncodeUsesAlphabet(s);
    SymbolsHaveNoLineBreaks(Encode(s));
    SymbolsRoundTrip(s);
  }

  /** The two symbols in which the URL-safe alphabet of section 5 of RFC 4648 differs. */
  lemma UrlSafeSymbols()
    ensures Symbol(62) == '-' && Symbol(63) == '_'
    ensures Encode([0xfb as char, 0xef as char, 0xff as char]) == "--__"
  {
    assert [0xfb as char, 0xef as char, 0xff as char][3..] == "";
  }

  /** Vectors of section 10 of RFC 4648, without padding. */
  lemma Vectors()
    ensures Encode("f") == "Zg" && Encode("fo") == "Zm8" && Encode("foo") == "Zm9v"
    ensures Encode("foob") == "Zm9vYg" && Encode("fooba") == "Zm9vYmE" && Encode("foobar") == "Zm9vYmFy"
  {
    assert "foobar"[3..] == "bar" && "fooba"[3..] == "ba" && "foob"[3..] == "b" && "foo"[3..] == "" && "bar"[3..] == "";
  }
}
