/** Text as code points, lone surrogates included, and its UTF-8 form (section 3 of RFC 3629). */
module Utf8Text {
  import opened Common

  type Code = c: int | 0 <= c < 0x110000

  type Text = seq<Code>

  predicate Scalar(c: Code) { !(0xD800 <= c < 0xE000) }

  predicate Encodable(t: Text) { forall i | 0 <= i < |t| :: Scalar(t[i]) }

  function EncodeOne(c: Code): (r: Bytes)
    ensures 1 <= |r| <= 4
    ensures c < 0x80 <==> r[0] < 0x80
    ensures c < 0x80 ==> r == [c]
    ensures c >= 0x80 ==> forall i | 0 <= i < |r| :: r[i] >= 0x80
  {
    if c < 0x80 then [c]
    else if c < 0x800 then [0xC0 + c / 64, 0x80 + c % 64]
    else if c < 0x10000 then [0xE0 + c / 4096, 0x80 + c / 64 % 64, 0x80 + c % 64]
    else [0xF0 + c / 262144, 0x80 + c / 4096 % 64, 0x80 + c / 64 % 64, 0x80 + c % 64]
  }

  function Encode(t: Text): Bytes {
    if t == [] then [] else EncodeOne(t[0]) + Encode(t[1..])
  }

  predicate Trails(s: Bytes, i: nat) { i < |s| && 0x80 <= s[i] < 0xC0 }

  datatype Decoded = Malformed | Char(code: Code, length: nat)

  /** The strict decoder's next character: no overlong form, no surrogate, nothing above 0x10FFFF. */
  function DecodeOne(s: Bytes): (r: Decoded)
    requires s != []
    ensures r.Char? ==> 1 <= r.length <= |s|
  {
    var a: int := s[0];
    if a < 0x80 then Char(a, 1)
    else if 0xC2 <= a < 0xE0 && Trails(s, 1) then
      var b: int := s[1];
      Char((a - 0xC0) * 64 + (b - 0x80), 2)
    else if 0xE0 <= a < 0xF0 && Trails(s, 1) && Trails(s, 2) then
      var b: int, c: int := s[1], s[2];
      var code := (a - 0xE0) * 4096 + (b - 0x80) * 64 + (c - 0x80);
      if code < 0x800 || 0xD800 <= code < 0xE000 then Malformed else Char(code, 3)
    else if 0xF0 <= a < 0xF5 && Trails(s, 1) && Trails(s, 2) && Trails(s, 3) then
      var b: int, c: int, d: int := s[1], s[2], s[3];
      var code := (a - 0xF0) * 262144 + (b - 0x80) * 4096 + (c - 0x80) * 64 + (d - 0x80);
      if code < 0x10000 || code >= 0x110000 then Malformed else Char(code, 4)
    else Malformed
  }

  function Decode(s: Bytes): Option<Text>
    decreases |s|
  {
    if s == [] then Some([])
    else match DecodeOne(s)
      case Malformed => None
      case Char(code, length) =>
        var rest := Decode(s[length..]);
        if rest.None? then None else Some([code] + rest.value)
  }

  lemma OneRoundTrip(c: Code, rest: Bytes)
    requires Scalar(c)
    ensures DecodeOne(EncodeOne(c) + rest) == Char(c, |EncodeOne(c)|)
  {
    var s := EncodeOne(c) + rest;
    assert forall i | 0 <= i < |EncodeOne(c)| :: s[i] == EncodeOne(c)[i];
    if 0x80 <= c < 0x800 {
      assert c == c / 64 * 64 + c % 64;
    } else if 0x800 <= c < 0x10000 {
      assert c / 64 / 64 == c / 4096;
      assert c == c / 4096 * 4096 + c / 64 % 64 * 64 + c % 64;
    } else if 0x10000 <= c {
      assert c / 64 / 64 == c / 4096 && c / 4096 / 64 == c / 262144;
      assert c == c / 262144 * 262144 + c / 4096 % 64 * 4096 + c / 64 % 64 * 64 + c % 64;
    }
  }

  /** Text without lone surrogates survives its UTF-8 form. */
  lemma {:induction false} TextRoundTrip(t: Text)
    requires Encodable(t)
    ensures Decode(Encode(t)) == Some(t)
  {
    hide EncodeOne, DecodeOne;
    if t != [] {
      var s := Encode(t);
      OneRoundTrip(t[0], Encode(t[1..]));
      assert s[|EncodeOne(t[0])|..] == Encode(t[1..]);
      TextRoundTrip(t[1..]);
      assert Decode(s) == Some([t[0]] + t[1..]);
      assert [t[0]] + t[1..] == t;
    }
  }

  /** A character that is decoded was encoded in just those bytes. */
  lemma OneWasEncoded(s: Bytes)
    requires s != [] && DecodeOne(s).Char?
    ensures var r := DecodeOne(s); Scalar(r.code) && s[..r.length] == EncodeOne(r.code)
  {
    var a: int := s[0];
    if a < 0x80 {
    } else if a < 0xE0 {
      var b: int := s[1];
      Quotients(a - 0xC0, 0, 0, b - 0x80);
    } else if a < 0xF0 {
      var b: int, c: int := s[1], s[2];
      Quotients(0, a - 0xE0, b - 0x80, c - 0x80);
    } else {
      var b: int, c: int, d: int := s[1], s[2], s[3];
      assert 0 <= b - 0x80 < 64 && 0 <= c - 0x80 < 64 && 0 <= d - 0x80 < 64;
      Sextets(a - 0xF0, b - 0x80, c - 0x80, d - 0x80);
    }
  }

  lemma Quotients(a: nat, b: nat, c: nat, d: nat)
    requires a < 64 && b < 64 && c < 64 && d < 64
    ensures (a * 64 + d) / 64 == a && (a * 64 + d) % 64 == d
    ensures var n := b * 4096 + c * 64 + d; n / 4096 == b && n / 64 % 64 == c && n % 64 == d
  {
    var n := b * 4096 + c * 64 + d;
    assert n == (b * 64 + c) * 64 + d;
    assert n / 64 == b * 64 + c;
  }

  lemma Sextets(a: nat, b: nat, c: nat, d: nat)
    requires a < 8 && b < 64 && c < 64 && d < 64
    ensures var n := a * 262144 + b * 4096 + c * 64 + d;
      n / 262144 == a && n / 4096 % 64 == b && n / 64 % 64 == c && n % 64 == d
  {
    var n := a * 262144 + b * 4096 + c * 64 + d;
    assert n == ((a * 64 + b) * 64 + c) * 64 + d;
    assert n / 64 == (a * 64 + b) * 64 + c;
    assert n / 4096 == a * 64 + b;
  }

  /** The strict decoder accepts the UTF-8 forms of encodable texts and nothing else. */
  lemma {:induction false} DecodeExactly(s: Bytes, t: Text)
    ensures Decode(s) == Some(t) <==> Encodable(t) && Encode(t) == s
    decreases |s|
  {
    hide EncodeOne, DecodeOne;
    if Encodable(t) && Encode(t) == s { TextRoundTrip(t); }
    if Decode(s) == Some(t) && s != [] {
      var r := DecodeOne(s);
      OneWasEncoded(s);
      DecodeExactly(s[r.length..], t[1..]);
      assert s == s[..r.length] + s[r.length..];
    }
  }

  lemma {:induction false} EncodeAppend(t: Text, u: Text)
    ensures Encode(t + u) == Encode(t) + Encode(u)
  {
    hide EncodeOne;
    if t == [] {
      assert t + u == u;
    } else {
      assert (t + u)[1..] == t[1..] + u;
      EncodeAppend(t[1..], u);
    }
  }

  // ----- Cutting text to a number of bytes -----

  /** The lenient decoder: bytes that begin no character are dropped. */
  function DecodeIgnoring(s: Bytes): Text
    decreases |s|
  {
    if s == [] then []
    else match DecodeOne(s)
      case Malformed => DecodeIgnoring(s[1..])
      case Char(code, length) => [code] + DecodeIgnoring(s[length..])
  }

  function Utf8Prefix(t: Text, limit: nat): Text {
    if |Encode(t)| <= limit then t else DecodeIgnoring(Encode(t)[..limit])
  }

  lemma {:induction false} TrailsVanish(s: Bytes)
    requires forall i | 0 <= i < |s| :: 0x80 <= s[i] < 0xC0
    ensures DecodeIgnoring(s) == []
  {
    if s != [] { TrailsVanish(s[1..]); }
  }

  /** Nothing of a cut character is kept. */
  lemma CutCharacterVanishes(c: Code, n: nat)
    requires Scalar(c) && n < |EncodeOne(c)|
    ensures DecodeIgnoring(EncodeOne(c)[..n]) == []
  {
    var s := EncodeOne(c)[..n];
    if n >= 1 {
      assert DecodeOne(s) == Malformed;
      TrailsVanish(s[1..]);
    }
  }

  lemma {:induction false} CutText(t: Text, n: nat)
    requires Encodable(t) && n <= |Encode(t)|
    ensures var p := DecodeIgnoring(Encode(t)[..n]);
      && p <= t && |Encode(p)| <= n
      && forall m | 0 <= m <= |t| && |Encode(t[..m])| <= n :: m <= |p|
  {
    hide EncodeOne, DecodeOne;
    if t != [] {
      var k, s := |EncodeOne(t[0])|, Encode(t)[..n];
      if k <= n {
        CutText(t[1..], n - k);
        assert s == EncodeOne(t[0]) + Encode(t[1..])[..n - k];
        OneRoundTrip(t[0], Encode(t[1..])[..n - k]);
        assert s[k..] == Encode(t[1..])[..n - k];
        var p, q := DecodeIgnoring(s), DecodeIgnoring(Encode(t[1..])[..n - k]);
        assert p == [t[0]] + q && p[1..] == q;
        assert t == [t[0]] + t[1..];
        forall m | 0 <= m <= |t| && |Encode(t[..m])| <= n
          ensures m <= |p|
        {
          if m > 0 { assert t[..m][1..] == t[1..][..m - 1]; }
        }
      } else {
        assert s == EncodeOne(t[0])[..n];
        CutCharacterVanishes(t[0], n);
      }
    }
  }

  /** Cutting a title keeps whole characters only, and as many of them as fit. */
  lemma PrefixIsLongest(t: Text, limit: nat)
    requires Encodable(t)
    ensures var p := Utf8Prefix(t, limit);
      && p <= t && |Encode(p)| <= limit
      && forall m | 0 <= m <= |t| && |Encode(t[..m])| <= limit :: m <= |p|
  {
    if |Encode(t)| > limit { CutText(t, limit); }
  }
}
