/** UTF-8 (section 3 of RFC 3629): the encoder, and the decoder that ignores what it cannot decode. */
module Utf8 {

  import opened Options

  type Byte = b: int | 0 <= b < 0x100

  /** A Unicode scalar value: a code point that is not a surrogate. */
  type Scalar = c: int | 0 <= c < 0xD800 || 0xE000 <= c < 0x11_0000

  function EncodeOne(c: Scalar): (bytes: seq<Byte>)
    ensures 1 <= |bytes| <= 4
  {
    if c < 0x80 then [c]
    else if c < 0x800 then [0xC0 + c / 0x40, 0x80 + c % 0x40]
    else if c < 0x1_0000 then [0xE0 + c / 0x1000, 0x80 + c / 0x40 % 0x40, 0x80 + c % 0x40]
    else [0xF0 + c / 0x4_0000, 0x80 + c / 0x1000 % 0x40, 0x80 + c / 0x40 % 0x40, 0x80 + c % 0x40]
  }

  /** Six more bits. */
  ghost function More(bits: int, b: int): int {
    bits * 0x40 + (b - 0x80)
  }

  /** The bytes, as the RFC has them: how many, in which ranges, and the bits they carry. */
  lemma EncodedBytes(c: Scalar)
    ensures var b := EncodeOne(c);
            && |b| == (if c < 0x80 then 1 else if c < 0x800 then 2 else if c < 0x1_0000 then 3 else 4)
            && (forall i | 1 <= i < |b| :: 0x80 <= b[i] < 0xC0)
            && (|b| == 1 ==> b[0] < 0x80 && c == b[0])
            && (|b| == 2 ==> 0xC0 <= b[0] < 0xE0 && c == More(b[0] as int - 0xC0, b[1]))
            && (|b| == 3 ==> 0xE0 <= b[0] < 0xF0 && c == More(More(b[0] as int - 0xE0, b[1]), b[2]))
            && (|b| == 4 ==> 0xF0 <= b[0] < 0xF8 && c == More(More(More(b[0] as int - 0xF0, b[1]), b[2]), b[3]))
  {
    if 0x800 <= c < 0x1_0000 {
      ThreeBytes(c);
    } else if 0x1_0000 <= c {
      FourBytes(c);
    }
  }

  function Encode(text: seq<Scalar>): seq<Byte> {
    if text == [] then [] else EncodeOne(text[0]) + Encode(text[1..])
  }

  predicate Continues(b: Byte) {
    0x80 <= b < 0xC0
  }

  predicate IsScalar(c: int) {
    0 <= c < 0xD800 || 0xE000 <= c < 0x11_0000
  }

  function Two(a: int, b: int): int {
    (a - 0xC0) * 0x40 + (b - 0x80)
  }

  function Three(a: int, b: int, c: int): int {
    (a - 0xE0) * 0x1000 + (b - 0x80) * 0x40 + (c - 0x80)
  }

  function Four(a: int, b: int, c: int, d: int): int {
    (a - 0xF0) * 0x4_0000 + (b - 0x80) * 0x1000 + (c - 0x80) * 0x40 + (d - 0x80)
  }

  /** The scalar value the bytes start with: of the right length, not overlong, not a surrogate, and
      not beyond the last plane. */
  function DecodeOne(bytes: seq<Byte>): Option<Scalar> {
    if |bytes| >= 1 && bytes[0] < 0x80 then Some(bytes[0])
    else if |bytes| >= 2 && 0xC2 <= bytes[0] < 0xE0 && Continues(bytes[1]) then
      Some(Two(bytes[0], bytes[1]))
    else if |bytes| >= 3 && 0xE0 <= bytes[0] < 0xF0 && Continues(bytes[1]) && Continues(bytes[2]) then
      var c := Three(bytes[0], bytes[1], bytes[2]);
      if c >= 0x800 && IsScalar(c) then Some(c) else None
    else if |bytes| >= 4 && 0xF0 <= bytes[0] < 0xF5 &&
            Continues(bytes[1]) && Continues(bytes[2]) && Continues(bytes[3]) then
      var c := Four(bytes[0], bytes[1], bytes[2], bytes[3]);
      if c >= 0x1_0000 && IsScalar(c) then Some(c) else None
    else None
  }

  lemma TwoBack(a: int, b: int)
    requires 0xC2 <= a < 0xE0 && 0x80 <= b < 0xC0
    ensures var c := Two(a, b); 0x80 <= c < 0x800 && 0xC0 + c / 0x40 == a && 0x80 + c % 0x40 == b
  {
  }

  lemma ThreeBack(a: int, b: int, c: int)
    requires 0xE0 <= a < 0xF0 && 0x80 <= b < 0xC0 && 0x80 <= c < 0xC0
    ensures var d := Three(a, b, c);
            && d < 0x1_0000 && 0xE0 + d / 0x1000 == a && 0x80 + d / 0x40 % 0x40 == b && 0x80 + d % 0x40 == c
  {
    var d := Three(a, b, c);
    assert d / 0x40 == (a - 0xE0) * 0x40 + (b - 0x80);
    assert d / 0x1000 == a - 0xE0;
  }

  lemma FourBack(a: int, b: int, c: int, d: int)
    requires 0xF0 <= a < 0xF5 && 0x80 <= b < 0xC0 && 0x80 <= c < 0xC0 && 0x80 <= d < 0xC0
    ensures var e := Four(a, b, c, d);
            && 0xF0 + e / 0x4_0000 == a && 0x80 + e / 0x1000 % 0x40 == b
            && 0x80 + e / 0x40 % 0x40 == c && 0x80 + e % 0x40 == d
  {
    var e := Four(a, b, c, d);
    assert e / 0x40 == (a - 0xF0) * 0x1000 + (b - 0x80) * 0x40 + (c - 0x80);
    assert e / 0x1000 == (a - 0xF0) * 0x40 + (b - 0x80);
    assert e / 0x4_0000 == a - 0xF0;
  }

  /** What is decoded is what those bytes encode. */
  lemma DecodedEncodes(bytes: seq<Byte>)
    ensures DecodeOne(bytes).Some? ==> EncodeOne(DecodeOne(bytes).value) <= bytes
  {
    if DecodeOne(bytes).Some? {
      var c := DecodeOne(bytes).value;
      if bytes[0] < 0x80 {
        assert EncodeOne(c) == [bytes[0]];
      } else if bytes[0] < 0xE0 {
        TwoBack(bytes[0], bytes[1]);
        assert EncodeOne(c) == [bytes[0], bytes[1]];
      } else if bytes[0] < 0xF0 {
        ThreeBack(bytes[0], bytes[1], bytes[2]);
        assert EncodeOne(c) == [bytes[0], bytes[1], bytes[2]];
      } else {
        FourBack(bytes[0], bytes[1], bytes[2], bytes[3]);
        assert EncodeOne(c) == [bytes[0], bytes[1], bytes[2], bytes[3]];
      }
    }
  }

  /** `bytes.decode("utf-8", errors="ignore")`. */
  function DecodeIgnoring(bytes: seq<Byte>): seq<Scalar>
    decreases |bytes|
  {
    if bytes == [] then []
    else
      var first := DecodeOne(bytes);
      if first.Some? then
        DecodedEncodes(bytes);
        [first.value] + DecodeIgnoring(bytes[|EncodeOne(first.value)|..])
      else DecodeIgnoring(bytes[1..])
  }

  // ---------------------------------------------------------------------------------
  // Decoding undoes encoding, also when the bytes are cut
  // ---------------------------------------------------------------------------------

  lemma TwoBytes(c: Scalar)
    requires 0x80 <= c < 0x800
    ensures Two(0xC0 + c / 0x40, 0x80 + c % 0x40) == c
    ensures 0xC2 <= 0xC0 + c / 0x40 < 0xE0
  {
  }

  lemma ThreeBytes(c: Scalar)
    requires 0x800 <= c < 0x1_0000
    ensures Three(0xE0 + c / 0x1000, 0x80 + c / 0x40 % 0x40, 0x80 + c % 0x40) == c
    ensures 0xE0 <= 0xE0 + c / 0x1000 < 0xF0
  {
  }

  lemma FourBytes(c: Scalar)
    requires 0x1_0000 <= c
    ensures Four(0xF0 + c / 0x4_0000, 0x80 + c / 0x1000 % 0x40, 0x80 + c / 0x40 % 0x40, 0x80 + c % 0x40) == c
    ensures 0xF0 <= 0xF0 + c / 0x4_0000 < 0xF5
  {
    var q: int := c / 0x40;
    var r: int := q / 0x40;
    assert c == q * 0x40 + c % 0x40 && q == r * 0x40 + q % 0x40;
    assert c / 0x1000 == r && c / 0x4_0000 == r / 0x40;
  }

  lemma DecodeEncodedOne(c: Scalar, rest: seq<Byte>)
    ensures DecodeOne(EncodeOne(c) + rest) == Some(c)
  {
    var one := EncodeOne(c);
    var bytes := one + rest;
    assert forall i | 0 <= i < |one| :: bytes[i] == one[i];
    if 0x80 <= c < 0x800 {
      TwoBytes(c);
    } else if 0x800 <= c < 0x1_0000 {
      ThreeBytes(c);
    } else if c >= 0x1_0000 {
      FourBytes(c);
    }
  }

  /** A character cut short decodes to nothing. */
  lemma DecodeCutOne(c: Scalar, n: nat)
    requires n < |EncodeOne(c)|
    ensures DecodeIgnoring(EncodeOne(c)[..n]) == []
  {
    var bytes := EncodeOne(c)[..n];
    if n > 0 {
      assert DecodeOne(bytes).None?;
      DecodeContinuations(bytes[1..]);
    }
  }

  lemma {:induction false} DecodeContinuations(bytes: seq<Byte>)
    requires forall i | 0 <= i < |bytes| :: Continues(bytes[i])
    ensures DecodeIgnoring(bytes) == []
    decreases |bytes|
  {
    if bytes == [] {
    } else {
      assert Continues(bytes[0]);
      assert DecodeOne(bytes).None?;
      DecodeContinuations(bytes[1..]);
    }
  }

  lemma DecodeStep(c: Scalar, bytes: seq<Byte>, rest: seq<Byte>)
    requires bytes == EncodeOne(c) + rest
    ensures DecodeIgnoring(bytes) == [c] + DecodeIgnoring(rest)
  {
    DecodeEncodedOne(c, rest);
    assert bytes[|EncodeOne(c)|..] == rest;
  }

  lemma EncodeThen(text: seq<Scalar>, rest: seq<Byte>)
    requires text != []
    ensures Encode(text) + rest == EncodeOne(text[0]) + (Encode(text[1..]) + rest)
  {
  }

  lemma DecodeHead(text: seq<Scalar>, rest: seq<Byte>)
    requires text != []
    ensures DecodeIgnoring(Encode(text) + rest) == [text[0]] + DecodeIgnoring(Encode(text[1..]) + rest)
  {
    EncodeThen(text, rest);
    DecodeStep(text[0], Encode(text) + rest, Encode(text[1..]) + rest);
  }

  /** What a decoded text is, given what every suffix decodes to. */
  lemma {:induction false} Unroll(text: seq<Scalar>, suffix: nat -> seq<Scalar>, i: nat)
    requires i <= |text|
    requires forall j {:trigger suffix(j)} | 0 <= j < |text| :: suffix(j) == [text[j]] + suffix(j + 1)
    ensures suffix(i) == text[i..] + suffix(|text|)
    decreases |text| - i
  {
    if i >= |text| {
    } else {
      Unroll(text, suffix, i + 1);
      assert text[i..] == [text[i]] + text[i + 1..];
    }
  }

  lemma DecodeEncodedThen(text: seq<Scalar>, rest: seq<Byte>)
    ensures DecodeIgnoring(Encode(text) + rest) == text + DecodeIgnoring(rest)
  {
    var suffix := (i: nat) => if i <= |text| then DecodeIgnoring(Encode(text[i..]) + rest) else [];
    forall j | 0 <= j < |text| ensures suffix(j) == [text[j]] + suffix(j + 1) {
      DecodeHead(text[j..], rest);
      assert text[j..][1..] == text[j + 1..];
    }
    Unroll(text, suffix, 0);
    assert text[0..] == text;
    assert Encode(text[|text|..]) + rest == rest;
  }

  lemma RoundTrip(text: seq<Scalar>)
    ensures DecodeIgnoring(Encode(text)) == text
  {
    DecodeEncodedThen(text, []);
    assert Encode(text) + [] == Encode(text);
    assert text + DecodeIgnoring([]) == text;
  }

  lemma {:induction false} EncodeConcat(a: seq<Scalar>, b: seq<Scalar>)
    ensures Encode(a + b) == Encode(a) + Encode(b)
  {
    if a == [] {
      assert a + b == b;
    } else {
      assert (a + b)[0] == a[0] && (a + b)[1..] == a[1..] + b;
      EncodeConcat(a[1..], b);
    }
  }

  /** How many characters of the text fit in n bytes. */
  ghost function Fitting(text: seq<Scalar>, n: nat): (k: nat)
    ensures k <= |text|
    decreases |text|
  {
    if text == [] || |EncodeOne(text[0])| > n then 0
    else 1 + Fitting(text[1..], n - |EncodeOne(text[0])|)
  }

  /** It is the longest prefix that fits, and cutting the bytes anywhere and ignoring what is broken
      gives exactly that prefix. */
  lemma {:induction false} CutDecodes(text: seq<Scalar>, n: nat)
    requires n <= |Encode(text)|
    ensures DecodeIgnoring(Encode(text)[..n]) == text[..Fitting(text, n)]
    decreases |text|
  {
    if text == [] {
    } else {
      var one := EncodeOne(text[0]);
      if |one| > n {
        assert Encode(text)[..n] == one[..n];
        DecodeCutOne(text[0], n);
      } else {
        var cut := Encode(text[1..])[..n - |one|];
        assert Encode(text)[..n] == one + cut;
        DecodeStep(text[0], one + cut, cut);
        CutDecodes(text[1..], n - |one|);
        var k := Fitting(text[1..], n - |one|);
        assert text[..1 + k] == [text[0]] + text[1..][..k];
      }
    }
  }

  lemma {:induction false} FittingIsLongest(text: seq<Scalar>, n: nat, j: nat)
    requires j <= |text|
    ensures |Encode(text[..j])| <= n <==> j <= Fitting(text, n)
    decreases |text|
  {
    if j == 0 {
    } else {
      assert text[..j][0] == text[0] && text[..j][1..] == text[1..][..j - 1];
      if |EncodeOne(text[0])| <= n {
        FittingIsLongest(text[1..], n - |EncodeOne(text[0])|, j - 1);
      }
    }
  }

  /** Cutting the bytes to n and decoding what is left: the longest prefix of the text. */
  lemma CutAnywhere(text: seq<Scalar>, n: nat)
    ensures var bytes := Encode(text);
            DecodeIgnoring(if n < |bytes| then bytes[..n] else bytes) == text[..Fitting(text, n)]
    ensures |Encode(text[..Fitting(text, n)])| <= n
  {
    FittingIsLongest(text, n, Fitting(text, n));
    if n < |Encode(text)| {
      CutDecodes(text, n);
    } else {
      assert text[..|text|] == text;
      FittingIsLongest(text, n, |text|);
      RoundTrip(text);
    }
  }
}
