/** What the codec is for: decoding undoes encoding, the encoding is that of RFC 4648
    section 4, and lines have the 76 columns of RFC 2045 section 6.8. */
module Base64RoundTrip {
  import opened Base64
  import opened Wrappers

  function Zeros(n: nat): seq<bv8> { seq(n, _ => 0) }

  /** The decoder between quads, with `done` decoded. */
  function At(done: seq<bv8>): (d: Decoder)
    ensures d.Valid()
  {
    Decoder(done + Zeros(|done|), |done|, 0)
  }

  // ---------------------------------------------------------------------------
  // One quad
  // ---------------------------------------------------------------------------

  lemma TablesInverse(i: bv8)
    requires i < 64
    ensures Value(Symbol(i)) == i
  {}

  /** The decoder inside a quad, with `part` assembled so far. */
  function Within(done: seq<bv8>, part: seq<bv8>): (d: Decoder)
    requires 1 <= |part| <= 3
    ensures d.Valid()
  {
    Decoder(done + part + Zeros(|done| + |part| - 1), |done| + |part| - 1, |part|)
  }

  lemma PutFirst(done: seq<bv8>, v: bv8)
    requires v < 64
    ensures At(done).Put(v) == Within(done, [v << 2])
  {
    assert At(done).Put(v).out == done + [v << 2] + Zeros(|done|);
  }

  lemma PutSecond(done: seq<bv8>, x: bv8, v: bv8)
    requires v < 64
    ensures Within(done, [x]).Put(v) == Within(done, [x | (v >> 4), (v & 15) << 4])
  {
    assert Within(done, [x]).Put(v).out == done + [x | (v >> 4), (v & 15) << 4] + Zeros(|done| + 1);
  }

  lemma PutThird(done: seq<bv8>, a: bv8, x: bv8, v: bv8)
    requires v < 64
    ensures Within(done, [a, x]).Put(v) == Within(done, [a, x | (v >> 2), (v & 3) << 6])
  {
    assert Within(done, [a, x]).Put(v).out == done + [a, x | (v >> 2), (v & 3) << 6] + Zeros(|done| + 2);
  }

  lemma PutFourth(done: seq<bv8>, a: bv8, b: bv8, x: bv8, v: bv8)
    requires v < 64
    ensures Within(done, [a, b, x]).Put(v) == At(done + [a, b, x | v])
  {
    assert Within(done, [a, b, x]).Put(v).out == done + [a, b, x | v] + Zeros(|done| + 3);
  }

  /** The encoder's shifts and masks against the decoder's. */
  lemma BitsMatch(a: bv8, b: bv8, c: bv8)
    ensures var v0, v1, v2, v3 := a >> 2, ((a & 3) << 4) | (b >> 4), ((b & 15) << 2) | (c >> 6), c & 0x3f;
      && v0 < 64 && v1 < 64 && v2 < 64 && v3 < 64
      && (v0 << 2) | (v1 >> 4) == a
      && ((v1 & 15) << 4) | (v2 >> 2) == b
      && ((v2 & 3) << 6) | v3 == c
  {}

  /** Reading a table symbol puts its value. */
  lemma ReadSymbol(i: bv8, rest: seq<bv8>, d: Decoder)
    requires i < 64 && d.Valid()
    ensures DecodedFrom([Symbol(i)] + rest, d) == DecodedFrom(rest, d.Put(i))
  {
    TablesInverse(i);
    assert ([Symbol(i)] + rest)[1..] == rest;
  }

  lemma QuadDecodes(done: seq<bv8>, a: bv8, b: bv8, c: bv8, rest: seq<bv8>)
    ensures DecodedFrom(Quad(a, b, c) + rest, At(done)) == DecodedFrom(rest, At(done + [a, b, c]))
  {
    var v0, v1, v2, v3 := a >> 2, ((a & 3) << 4) | (b >> 4), ((b & 15) << 2) | (c >> 6), c & 0x3f;
    BitsMatch(a, b, c);
    QuadReads(done, v0, v1, v2, v3, rest);
    assert Quad(a, b, c) == [Symbol(v0), Symbol(v1), Symbol(v2), Symbol(v3)];
  }

  lemma QuadReads(done: seq<bv8>, v0: bv8, v1: bv8, v2: bv8, v3: bv8, rest: seq<bv8>)
    requires v0 < 64 && v1 < 64 && v2 < 64 && v3 < 64
    ensures DecodedFrom([Symbol(v0), Symbol(v1), Symbol(v2), Symbol(v3)] + rest, At(done))
         == DecodedFrom(rest, At(done + [(v0 << 2) | (v1 >> 4), ((v1 & 15) << 4) | (v2 >> 2), ((v2 & 3) << 6) | v3]))
  {
    hide *;
    ReadThree(done, v0, v1, v2, [Symbol(v3)] + rest);
    assert [Symbol(v0), Symbol(v1), Symbol(v2), Symbol(v3)] + rest
        == [Symbol(v0), Symbol(v1), Symbol(v2)] + ([Symbol(v3)] + rest);
    var a, b, x := (v0 << 2) | (v1 >> 4), ((v1 & 15) << 4) | (v2 >> 2), (v2 & 3) << 6;
    PutFourth(done, a, b, x, v3);
    ReadSymbol(v3, rest, Within(done, [a, b, x]));
  }

  lemma ReadTwo(done: seq<bv8>, v0: bv8, v1: bv8, rest: seq<bv8>)
    requires v0 < 64 && v1 < 64
    ensures DecodedFrom([Symbol(v0), Symbol(v1)] + rest, At(done))
         == DecodedFrom(rest, Within(done, [(v0 << 2) | (v1 >> 4), (v1 & 15) << 4]))
  {
    hide *;
    assert [Symbol(v0), Symbol(v1)] + rest == [Symbol(v0)] + ([Symbol(v1)] + rest);
    PutFirst(done, v0);
    ReadSymbol(v0, [Symbol(v1)] + rest, At(done));
    PutSecond(done, v0 << 2, v1);
    ReadSymbol(v1, rest, Within(done, [v0 << 2]));
  }

  lemma ReadThree(done: seq<bv8>, v0: bv8, v1: bv8, v2: bv8, rest: seq<bv8>)
    requires v0 < 64 && v1 < 64 && v2 < 64
    ensures DecodedFrom([Symbol(v0), Symbol(v1), Symbol(v2)] + rest, At(done))
         == DecodedFrom(rest, Within(done, [(v0 << 2) | (v1 >> 4), ((v1 & 15) << 4) | (v2 >> 2), (v2 & 3) << 6]))
  {
    hide *;
    assert [Symbol(v0), Symbol(v1), Symbol(v2)] + rest == [Symbol(v0), Symbol(v1)] + ([Symbol(v2)] + rest);
    ReadTwo(done, v0, v1, [Symbol(v2)] + rest);
    var a, x := (v0 << 2) | (v1 >> 4), (v1 & 15) << 4;
    PutThird(done, a, x, v2);
    ReadSymbol(v2, rest, Within(done, [a, x]));
  }

  // ---------------------------------------------------------------------------
  // Other characters
  // ---------------------------------------------------------------------------

  /** The characters of a text that are letters, digits, plus or slash. */
  function Symbols(s: seq<bv8>): seq<bv8> {
    if s == [] then []
    else
      var c := s[0];
      (if 65 <= c <= 90 || 97 <= c <= 122 || 48 <= c <= 57 || c == 43 || c == 47 then [c] else []) + Symbols(s[1..])
  }

  /** Without padding and zeros, all others are ignored wherever they stand. */
  lemma {:induction false} OthersIgnored(s: seq<bv8>, d: Decoder)
    requires d.Valid() && forall i :: 0 <= i < |s| ==> s[i] != 0 && s[i] != 61
    ensures DecodedFrom(s, d) == DecodedFrom(Symbols(s), d)
  {
    if s != [] {
      var rest := s[1..];
      hide Decoder.Put, Decoder.Valid;
      if Value(s[0]) < 64 {
        ValueSplit(s[0]);
        OthersIgnored(rest, d.Put(Value(s[0])));
        assert Symbols(s) == [s[0]] + Symbols(rest) && Symbols(s)[1..] == Symbols(rest);
      } else {
        OthersIgnored(rest, d);
        assert Symbols(s) == [] + Symbols(rest) == Symbols(rest);
      }
    }
  }

  /** Decoding ends at the first zero. */
  lemma {:induction false} ZeroEnds(s: seq<bv8>, more: seq<bv8>, d: Decoder)
    requires d.Valid()
    ensures DecodedFrom(s + [0] + more, d) == DecodedFrom(s, d)
  {
    var text := s + [0] + more;
    if s != [] && s[0] != 0 {
      hide Decoder.Put, Decoder.Valid;
      assert text[0] == s[0] && text[1..] == s[1..] + [0] + more;
      assert |s| > 1 ==> text[1] == s[1];
      assert |s| == 1 ==> text[1] == 0;
      if Value(s[0]) < 64 {
        ZeroEnds(s[1..], more, d.Put(Value(s[0])));
      } else {
        ZeroEnds(s[1..], more, d);
      }
    }
  }

  // ---------------------------------------------------------------------------
  // The round trip
  // ---------------------------------------------------------------------------

  /** The vector the decoder leaves for `n` decoded bytes has this many zeros after them. */
  function Slack(n: nat): nat { if n % 3 == 0 then n else n + 1 }

  lemma TailDecodes(done: seq<bv8>, text: seq<bv8>)
    requires |text| < 3 && |done| % 3 == 0
    ensures DecodedFrom(Tail(text), At(done)) == (done + text + Zeros(Slack(|done| + |text|)), text != [])
  {
    hide Symbol, DecodedFrom, At, Zeros;
    if text == [] {
      NoneLeft(done);
      assert done + text == done;
    } else if |text| == 1 {
      OneLeft(done, text[0]);
      assert text == [text[0]] && Slack(|done| + 1) == |done| + 2;
    } else {
      TwoLeft(done, text[0], text[1]);
      assert text == [text[0], text[1]] && Slack(|done| + 2) == |done| + 3;
    }
  }

  lemma NoneLeft(done: seq<bv8>)
    ensures DecodedFrom([], At(done)) == (done + Zeros(|done|), false)
  {}

  lemma OneLeft(done: seq<bv8>, a: bv8)
    ensures DecodedFrom([Symbol(a >> 2), Symbol((a & 3) << 4), PAD, PAD], At(done))
         == (done + [a] + Zeros(|done| + 2), true)
  {
    hide Symbol, DecodedFrom, At, Zeros;
    OneBits(a);
    ReadOneLeft(done, a, a >> 2, (a & 3) << 4);
  }

  lemma TwoLeft(done: seq<bv8>, a: bv8, b: bv8)
    ensures DecodedFrom([Symbol(a >> 2), Symbol(((a & 3) << 4) | (b >> 4)), Symbol((b & 15) << 2), PAD], At(done))
         == (done + [a, b] + Zeros(|done| + 3), true)
  {
    hide Symbol, DecodedFrom, At, Zeros;
    TwoBits(a, b);
    ReadTwoLeft(done, a, b, a >> 2, ((a & 3) << 4) | (b >> 4), (b & 15) << 2);
  }

  /** With the next byte absent, what is left over in the last byte is zero. */
  lemma OneBits(a: bv8)
    ensures var v0, v1 := a >> 2, (a & 3) << 4;
      v0 < 64 && v1 < 64 && (v0 << 2) | (v1 >> 4) == a && (v1 & 15) << 4 == 0
  {}

  lemma TwoBits(a: bv8, b: bv8)
    ensures var v0, v1, v2 := a >> 2, ((a & 3) << 4) | (b >> 4), (b & 15) << 2;
      && v0 < 64 && v1 < 64 && v2 < 64
      && (v0 << 2) | (v1 >> 4) == a && ((v1 & 15) << 4) | (v2 >> 2) == b && (v2 & 3) << 6 == 0
  {}

  lemma ReadOneLeft(done: seq<bv8>, a: bv8, v0: bv8, v1: bv8)
    requires v0 < 64 && v1 < 64 && (v0 << 2) | (v1 >> 4) == a && (v1 & 15) << 4 == 0
    ensures DecodedFrom([Symbol(v0), Symbol(v1), PAD, PAD], At(done)) == (done + [a] + Zeros(|done| + 2), true)
  {
    ReadTwo(done, v0, v1, [PAD, PAD]);
    hide Symbol, Value, Decoder.Put;
    assert [Symbol(v0), Symbol(v1), PAD, PAD] == [Symbol(v0), Symbol(v1)] + [PAD, PAD];
    PadStops();
    assert Within(done, [a, 0]).out == done + [a] + Zeros(|done| + 2);
  }

  lemma ReadTwoLeft(done: seq<bv8>, a: bv8, b: bv8, v0: bv8, v1: bv8, v2: bv8)
    requires v0 < 64 && v1 < 64 && v2 < 64
    requires (v0 << 2) | (v1 >> 4) == a && ((v1 & 15) << 4) | (v2 >> 2) == b && (v2 & 3) << 6 == 0
    ensures DecodedFrom([Symbol(v0), Symbol(v1), Symbol(v2), PAD], At(done)) == (done + [a, b] + Zeros(|done| + 3), true)
  {
    ReadThree(done, v0, v1, v2, [PAD]);
    hide Symbol, Value, Decoder.Put;
    assert [Symbol(v0), Symbol(v1), Symbol(v2), PAD] == [Symbol(v0), Symbol(v1), Symbol(v2)] + [PAD];
    PadStops();
    assert Within(done, [a, b, 0]).out == done + [a, b] + Zeros(|done| + 3);
  }

  lemma PadStops()
    ensures Value(PAD) == 97
  {}

  lemma BreakSkipped(line: nat, rest: seq<bv8>, d: Decoder)
    requires d.Valid()
    ensures DecodedFrom(Break(line) + rest, d) == DecodedFrom(rest, d)
  {
    assert ([NEWLINE] + rest)[1..] == rest;
    assert [] + rest == rest;
  }

  lemma {:induction false} BodyDecodes(done: seq<bv8>, text: seq<bv8>, line: nat)
    requires |done| % 3 == 0
    ensures DecodedFrom(Body(text, line), At(done))
         == (done + text + Zeros(Slack(|done| + |text|)), |text| % 3 != 0)
    decreases |text|
  {
    hide Quad, Tail, DecodedFrom, At;
    if |text| < 3 {
      TailDecodes(done, text);
    } else {
      var a, b, c := text[0], text[1], text[2];
      var rest := Body(text[3..], NextLine(line));
      assert Body(text, line) == Quad(a, b, c) + (Break(line) + rest);
      QuadDecodes(done, a, b, c, Break(line) + rest);
      BreakSkipped(line, rest, At(done + [a, b, c]));
      BodyDecodes(done + [a, b, c], text[3..], NextLine(line));
      assert done + [a, b, c] + text[3..] == done + text;
    }
  }

  /** Decoding the encoding of any seven-bit text of four bytes or more gives the text back,
      followed only by zeros, and reports success exactly when there was padding. */
  lemma RoundTrip(text: seq<bv8>)
    requires |text| >= 4 && SevenBit(text)
    ensures Encoded(text).Ok?
    ensures Decoded(Encoded(text).value) == (text + Zeros(Slack(|text|)), |text| % 3 != 0)
  {
    assert At([]) == START;
    BodyDecodes([], text, 0);
    assert [] + text == text;
  }

  predicate Survives(text: seq<bv8>) {
    Encoded(text).Ok? && text <= Decoded(Encoded(text).value).0
  }

  /** Other texts are lost: the encoder gives up on shorter ones and leaves its table on others. */
  lemma RoundTripIff(text: seq<bv8>)
    ensures Survives(text) <==> |text| >= 4 && SevenBit(text)
  {
    if |text| >= 4 && SevenBit(text) {
      RoundTrip(text);
    }
  }

  /** One byte above 127, wherever it stands, is enough. */
  lemma HighByteFails(text: seq<bv8>, i: nat)
    requires |text| >= 4 && i < |text| && text[i] >= 128
    ensures Encoded(text) == Err(OutsideTable) && !Survives(text)
  {
    assert !SevenBit(text);
  }

  /** Four bytes of which one is too high, and three bytes. */
  lemma LostTexts()
    ensures !Survives([0x80, 0, 0, 0]) && !Survives([65, 66, 67])
  {
    HighByteFails([0x80, 0, 0, 0], 0);
    RoundTripIff([65, 66, 67]);
  }

  // ---------------------------------------------------------------------------
  // RFC 4648 and RFC 2045
  // ---------------------------------------------------------------------------

  /** The 24-bit input group of RFC 4648 section 4, and its four 6-bit digits. */
  function Group(a: bv8, b: bv8, c: bv8): bv24 {
    ((a as bv24) << 16) | ((b as bv24) << 8) | (c as bv24)
  }

  function Digit(g: bv24, k: nat): (v: bv8)
    requires k < 4
    ensures v < 64
  {
    var shifted := if k == 0 then g >> 18 else if k == 1 then g >> 12 else if k == 2 then g >> 6 else g;
    (shifted & 63) as bv8
  }

  /** RFC 4648 without line feeds: whole groups, then a final quantum padded to four. */
  function Rfc4648(text: seq<bv8>): seq<bv8> {
    if |text| == 0 then []
    else if |text| == 1 then
      var g := Group(text[0], 0, 0);
      [Symbol(Digit(g, 0)), Symbol(Digit(g, 1)), PAD, PAD]
    else if |text| == 2 then
      var g := Group(text[0], text[1], 0);
      [Symbol(Digit(g, 0)), Symbol(Digit(g, 1)), Symbol(Digit(g, 2)), PAD]
    else
      var g := Group(text[0], text[1], text[2]);
      [Symbol(Digit(g, 0)), Symbol(Digit(g, 1)), Symbol(Digit(g, 2)), Symbol(Digit(g, 3))] + Rfc4648(text[3..])
  }

  lemma Digits(a: bv8, b: bv8, c: bv8)
    ensures var g := Group(a, b, c);
      && Digit(g, 0) == a >> 2 && Digit(g, 1) == ((a & 3) << 4) | (b >> 4)
      && Digit(g, 2) == ((b & 15) << 2) | (c >> 6) && Digit(g, 3) == c & 0x3f
  {}

  function WithoutBreaks(s: seq<bv8>): seq<bv8> {
    if s == [] then []
    else (if s[0] == NEWLINE then [] else [s[0]]) + WithoutBreaks(s[1..])
  }

  lemma {:induction false} WithoutBreaksConcat(s: seq<bv8>, t: seq<bv8>)
    ensures WithoutBreaks(s + t) == WithoutBreaks(s) + WithoutBreaks(t)
  {
    if s == [] {
      assert s + t == t;
    } else {
      assert (s + t)[0] == s[0] && (s + t)[1..] == s[1..] + t;
      WithoutBreaksConcat(s[1..], t);
    }
  }

  lemma {:induction false} NoBreaks(s: seq<bv8>)
    requires forall i :: 0 <= i < |s| ==> s[i] != NEWLINE
    ensures WithoutBreaks(s) == s
  {
    if s != [] {
      NoBreaks(s[1..]);
    }
  }

  lemma SymbolPrints(i: bv8)
    requires i < 64
    ensures Symbol(i) != NEWLINE
  {}

  lemma {:induction false} BodyIsRfc(text: seq<bv8>, line: nat)
    ensures WithoutBreaks(Body(text, line)) == Rfc4648(text)
  {
    hide Symbol, Digit, Group;
    if |text| < 3 {
      TailIsRfc(text);
    } else {
      var a, b, c := text[0], text[1], text[2];
      var rest := Body(text[3..], NextLine(line));
      Digits(a, b, c);
      QuadPrints(a, b, c);
      NoBreaks(Quad(a, b, c));
      BodyIsRfc(text[3..], NextLine(line));
      assert Body(text, line) == Quad(a, b, c) + (Break(line) + rest);
      WithoutBreaksConcat(Quad(a, b, c), Break(line) + rest);
      WithoutBreaksConcat(Break(line), rest);
      assert [] + Rfc4648(text[3..]) == Rfc4648(text[3..]);
    }
  }

  lemma QuadPrints(a: bv8, b: bv8, c: bv8)
    ensures forall i :: 0 <= i < 4 ==> Quad(a, b, c)[i] != NEWLINE
  {
    SymbolPrints(a >> 2);
    SymbolPrints(((a & 3) << 4) | (b >> 4));
    SymbolPrints(((b & 15) << 2) | (c >> 6));
    SymbolPrints(c & 0x3f);
  }

  lemma TailIsRfc(text: seq<bv8>)
    requires |text| < 3
    ensures WithoutBreaks(Tail(text)) == Rfc4648(text)
    ensures forall i :: 0 <= i < |Tail(text)| ==> Tail(text)[i] != NEWLINE
  {
    hide Symbol, Rfc4648, WithoutBreaks;
    if |text| == 1 {
      OneIsRfc(text);
      NoBreaks(Tail(text));
    } else if |text| == 2 {
      TwoAreRfc(text);
      NoBreaks(Tail(text));
    } else {
      NoneIsRfc();
    }
  }

  lemma NoneIsRfc()
    ensures WithoutBreaks([]) == [] == Rfc4648([])
  {}

  lemma OneIsRfc(text: seq<bv8>)
    requires |text| == 1
    ensures Tail(text) == Rfc4648(text) && forall i :: 0 <= i < |Tail(text)| ==> Tail(text)[i] != NEWLINE
  {
    hide Symbol, Digit, Group;
    Digits(text[0], 0, 0);
    assert (text[0] & 3) << 4 == ((text[0] & 3) << 4) | ((0 as bv8) >> 4);
    SymbolPrints(text[0] >> 2);
    SymbolPrints((text[0] & 3) << 4);
  }

  lemma TwoAreRfc(text: seq<bv8>)
    requires |text| == 2
    ensures Tail(text) == Rfc4648(text) && forall i :: 0 <= i < |Tail(text)| ==> Tail(text)[i] != NEWLINE
  {
    hide Symbol, Digit, Group;
    Digits(text[0], text[1], 0);
    assert (text[1] & 15) << 2 == ((text[1] & 15) << 2) | ((0 as bv8) >> 6);
    SymbolPrints(text[0] >> 2);
    SymbolPrints(((text[0] & 3) << 4) | (text[1] >> 4));
    SymbolPrints((text[1] & 15) << 2);
  }

  /** Apart from line breaks, the encoder's output is the RFC 4648 encoding, for exactly the texts
      that survive. */
  lemma EncodedIsRfc4648(text: seq<bv8>)
    ensures (Encoded(text).Ok? && WithoutBreaks(Encoded(text).value) == Rfc4648(text)) <==>
            |text| >= 4 && SevenBit(text)
  {
    hide Body, Symbol, Digit, Group;
    if |text| >= 4 {
      BodyIsRfc(text, 0);
    }
  }

  /** Every line but the last is exactly 76 characters long: a line feed stands in each
      77th place and nowhere else. */
  lemma LineLength(text: seq<bv8>, i: nat)
    requires Encoded(text).Ok? && i < |Encoded(text).value|
    ensures Encoded(text).value[i] == 10 <==> i % 77 == 76
  {
    BodyLines(text, 0, i);
  }

  lemma {:induction false} BodyLines(text: seq<bv8>, line: nat, i: nat)
    requires line <= 18 && i < |Body(text, line)|
    ensures Body(text, line)[i] == NEWLINE <==> (4 * line + i) % 77 == 76
  {
    hide Quad, Tail;
    if |text| < 3 {
      TailIsRfc(text);
      TailSize(text);
    } else {
      QuadPrints(text[0], text[1], text[2]);
      var used := 4 + |Break(line)|;
      if i >= used {
        BodyLines(text[3..], NextLine(line), i - used);
      }
    }
  }
}
