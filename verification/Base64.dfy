/** The Base64 codec: an encoder that breaks lines after 76 columns, and a decoder that
    assembles bytes in place in a growing vector. Characters and bytes are 8-bit vectors; in the
    encoder they are signed, so a set top bit makes the table index negative. */
module Base64 {
  import opened Wrappers

  const NEWLINE: bv8 := 10
  const PAD: bv8 := 61

  /** The encoding table. */
  function Symbol(i: bv8): bv8
    requires i < 64
  {
    if i < 26 then i + 65          // A-Z
    else if i < 52 then i + 71     // a-z
    else if i < 62 then i - 4      // 0-9
    else if i == 62 then 43        // +
    else 47                        // /
  }

  /** The decoding table: 0-63 for a symbol, 96 end of string, 97 padding, 98 line ends,
      99 anything else. */
  function Value(c: bv8): bv8 {
    if c == 0 then 96
    else if c == PAD then 97
    else if c == NEWLINE || c == 13 then 98
    else if 65 <= c <= 90 then c - 65
    else if 97 <= c <= 122 then c - 71
    else if 48 <= c <= 57 then c + 4
    else if c == 43 then 62
    else if c == 47 then 63
    else 99
  }

  /** The encoder reads its input or its table outside their bounds. */
  datatype Fault = OutsideData | OutsideTable

  predicate SevenBit(text: seq<bv8>) {
    forall i :: 0 <= i < |text| ==> text[i] < 128
  }

  // ---------------------------------------------------------------------------
  // Encoding
  // ---------------------------------------------------------------------------

  function Quad(a: bv8, b: bv8, c: bv8): (s: seq<bv8>)
    ensures |s| == 4
  {
    [Symbol(a >> 2), Symbol(((a & 3) << 4) | (b >> 4)), Symbol(((b & 15) << 2) | (c >> 6)), Symbol(c & 0x3f)]
  }

  function Tail(text: seq<bv8>): seq<bv8>
    requires |text| < 3
  {
    if |text| == 0 then []
    else if |text| == 1 then [Symbol(text[0] >> 2), Symbol((text[0] & 3) << 4), PAD, PAD]
    else [Symbol(text[0] >> 2), Symbol(((text[0] & 3) << 4) | (text[1] >> 4)), Symbol((text[1] & 15) << 2), PAD]
  }

  /** A line break after the 19th quad of a line. */
  function Break(line: nat): seq<bv8> {
    if line + 1 > 18 then [NEWLINE] else []
  }

  function NextLine(line: nat): nat {
    if line + 1 > 18 then 0 else line + 1
  }

  /** The characters for `text` when `line` quads already stand on the current line. */
  function Body(text: seq<bv8>, line: nat): seq<bv8> {
    if |text| < 3 then Tail(text)
    else Quad(text[0], text[1], text[2]) + Break(line) + Body(text[3..], NextLine(line))
  }

  /** What the encoder produces: nothing for one to three bytes, because the loop that saves the
      first triple returns as soon as the input is used up. It reads a byte before it looks at
      the length, and it finds no symbol for a byte above 127. */
  function Encoded(text: seq<bv8>): Result<seq<bv8>, Fault> {
    if text == [] then Err(OutsideData)
    else if |text| <= 3 then Ok([])
    else if SevenBit(text) then Ok(Body(text, 0))
    else Err(OutsideTable)
  }

  /** How long the encoder's running count says the output is. */
  function EncodedLength(n: nat): nat {
    if n <= 3 then 0 else 4 * ((n + 2) / 3) + (n / 3) / 19
  }

  /** A signed character promoted to a 32-bit integer. */
  function Promoted(x: bv8): bv32 {
    if x < 128 then x as bv32 else 0xFFFF_FF00 | (x as bv32)
  }

  /** The shift of a signed integer keeps its sign. */
  function ShiftRight(x: bv32, n: bv5): bv32 {
    if x < 0x8000_0000 then x >> n else !(!x >> n)
  }

  /** A table access; a negative index is a large unsigned one. */
  function SymbolAt(i: bv32): Result<bv8, Fault> {
    if i < 64 then Ok(Symbol(i as bv8)) else Err(OutsideTable)
  }

  function FirstIndex(a: bv8): bv32 { ShiftRight(Promoted(a), 2) }

  function SecondIndex(a: bv8, b: bv8): bv32 { ((Promoted(a) & 3) << 4) | ShiftRight(Promoted(b), 4) }

  function ThirdIndex(b: bv8, c: bv8): bv32 { ((Promoted(b) & 15) << 2) | ShiftRight(Promoted(c), 6) }

  function FourthIndex(c: bv8): bv32 { Promoted(c) & 0x3f }

  /** Each signed index is the intended one, or outside the table because of a set top bit. */
  lemma FirstIndexed(a: bv8)
    ensures if a < 128 then a >> 2 < 64 && FirstIndex(a) == (a >> 2) as bv32 else FirstIndex(a) >= 64
  {}

  lemma SecondIndexed(a: bv8, b: bv8)
    ensures var i := ((a & 3) << 4) | (b >> 4);
      if b < 128 then i < 64 && SecondIndex(a, b) == i as bv32 else SecondIndex(a, b) >= 64
  {}

  lemma ThirdIndexed(b: bv8, c: bv8)
    ensures var i := ((b & 15) << 2) | (c >> 6);
      if c < 128 then i < 64 && ThirdIndex(b, c) == i as bv32 else ThirdIndex(b, c) >= 64
  {}

  lemma FourthIndexed(c: bv8)
    ensures c & 0x3f < 64 && FourthIndex(c) == (c & 0x3f) as bv32
  {}

  lemma LastIndexed(a: bv8)
    ensures (a & 3) << 4 < 64 && (Promoted(a) & 3) << 4 == ((a & 3) << 4) as bv32
    ensures (a & 15) << 2 < 64 && (Promoted(a) & 15) << 2 == ((a & 15) << 2) as bv32
  {}

  /** The four table accesses of a triple. */
  method EncodeTriple(a: bv8, b: bv8, c: bv8) returns (r: Result<seq<bv8>, Fault>)
    ensures r == if a < 128 && b < 128 && c < 128 then Ok(Quad(a, b, c)) else Err(OutsideTable)
  {
    FirstIndexed(a);
    SecondIndexed(a, b);
    ThirdIndexed(b, c);
    FourthIndexed(c);
    hide FirstIndex, SecondIndex, ThirdIndex, FourthIndex, Symbol;
    var s0 :- SymbolAt(FirstIndex(a));
    var s1 :- SymbolAt(SecondIndex(a, b));
    var s2 :- SymbolAt(ThirdIndex(b, c));
    var s3 := Symbol(FourthIndex(c) as bv8);
    return Ok([s0, s1, s2, s3]);
  }

  /** The two cases of the switch over what is left. */
  method EncodeOne(a: bv8) returns (r: Result<seq<bv8>, Fault>)
    ensures r == if a < 128 then Ok(Tail([a])) else Err(OutsideTable)
  {
    FirstIndexed(a);
    LastIndexed(a);
    hide FirstIndex, Symbol;
    var s0 :- SymbolAt(FirstIndex(a));
    var s1 := Symbol(((Promoted(a) & 3) << 4) as bv8);
    return Ok([s0, s1, PAD, PAD]);
  }

  method EncodeTwo(a: bv8, b: bv8) returns (r: Result<seq<bv8>, Fault>)
    ensures r == if a < 128 && b < 128 then Ok(Tail([a, b])) else Err(OutsideTable)
  {
    FirstIndexed(a);
    SecondIndexed(a, b);
    LastIndexed(b);
    hide FirstIndex, SecondIndex, Symbol;
    var s0 :- SymbolAt(FirstIndex(a));
    var s1 :- SymbolAt(SecondIndex(a, b));
    var s2 := Symbol(((Promoted(b) & 15) << 2) as bv8);
    return Ok([s0, s1, s2, PAD]);
  }

  method EncodeRest(rest: seq<bv8>) returns (r: Result<seq<bv8>, Fault>)
    requires |rest| < 3
    ensures r == if SevenBit(rest) then Ok(Tail(rest)) else Err(OutsideTable)
  {
    hide Symbol;
    if |rest| == 1 {
      assert rest == [rest[0]];
      r := EncodeOne(rest[0]);
    } else if |rest| == 2 {
      assert rest == [rest[0], rest[1]];
      r := EncodeTwo(rest[0], rest[1]);
    } else {
      r := Ok([]);
    }
  }

  method Encode(text: seq<bv8>) returns (r: Result<seq<bv8>, Fault>)
    ensures r == Encoded(text)
    ensures r.Ok? ==> |r.value| == EncodedLength(|text|)
  {
    hide Quad, Tail, EncodedLength;
    EncodedSize(text);
    var out: seq<bv8> := [];
    var encodeLength, saveCount, length, data := 0, 0, |text|, 0;
    var saveTriple := [0, 0, 0];
    while saveCount < 3
      invariant 0 <= saveCount <= 3 && data == saveCount && length == |text| - saveCount
      invariant saveCount > 0 ==> length > 0
      invariant |saveTriple| == 3 && saveTriple[..saveCount] == text[..saveCount]
    {
      if data == |text| {
        return Err(OutsideData);
      }
      saveTriple := saveTriple[saveCount := text[data]];
      saveCount, data, length := saveCount + 1, data + 1, length - 1;
      if length == 0 {
        return Ok(out);
      }
    }
    assert saveTriple == text[..3];
    assert text[0] == saveTriple[0] && text[1] == saveTriple[1] && text[2] == saveTriple[2];
    SevenBitTriple(text);
    var quad :- EncodeTriple(saveTriple[0], saveTriple[1], saveTriple[2]);
    out := out + quad;
    encodeLength := encodeLength + 4;
    // One quad on the first line: the test against 76 columns cannot succeed here.
    assert quad + [] + Body(text[data..], 1) == Body(text, 0);
    assert quad + [] == quad == out;
    r := EncodeFrames(text[data..], out, encodeLength, 1);
  }

  /** The main loop over whole triples and the switch over what is left. */
  method EncodeFrames(data: seq<bv8>, start: seq<bv8>, startLength: nat, startLine: nat)
    returns (r: Result<seq<bv8>, Fault>)
    requires startLength == |start|
    ensures r == if SevenBit(data) then Ok(start + Body(data, startLine)) else Err(OutsideTable)
  {
    var out := start;
    var encodeLength, nextLine, length, i := startLength, startLine, |data|, 0;
    assert data[0..] == data;
    while i + 2 < length
      invariant 0 <= i <= length
      invariant start + Body(data, startLine) == out + Body(data[i..], nextLine)
      invariant SevenBit(data) <==> SevenBit(data[i..])
      invariant encodeLength == |out|
    {
      hide *;
      var frame := data[i..];
      BodyQuad(out, frame, nextLine);
      SevenBitTriple(frame);
      assert frame[3..] == data[i + 3..];
      var quad :- EncodeTriple(frame[0], frame[1], frame[2]);
      out := out + quad;
      encodeLength := encodeLength + 4;
      nextLine := nextLine + 1;
      if nextLine > 18 {
        out := out + [NEWLINE];
        encodeLength := encodeLength + 1;
        nextLine := 0;
      }
      i := i + 3;
    }
    hide Tail;
    var rest :- EncodeRest(data[i..]);
    out := out + rest;
    encodeLength := encodeLength + |rest|;
    // The run-time check at the end of the encoder.
    assert encodeLength == |out|;
    return Ok(out);
  }

  lemma SevenBitTriple(text: seq<bv8>)
    requires |text| >= 3
    ensures SevenBit(text) <==> text[0] < 128 && text[1] < 128 && text[2] < 128 && SevenBit(text[3..])
  {
    assert text == [text[0], text[1], text[2]] + text[3..];
  }

  lemma BodyQuad(done: seq<bv8>, text: seq<bv8>, line: nat)
    requires |text| >= 3
    ensures var next := done + Quad(text[0], text[1], text[2]);
      done + Body(text, line) ==
      if line + 1 > 18 then next + [NEWLINE] + Body(text[3..], 0) else next + Body(text[3..], line + 1)
  {}

  /** Four characters for each started triple, and a line break for each 19 whole ones. */
  lemma EncodedSize(text: seq<bv8>)
    ensures Encoded(text).Ok? ==> |Encoded(text).value| == EncodedLength(|text|)
  {
    BodySize(text, 0);
  }

  lemma {:induction false} BodySize(text: seq<bv8>, line: nat)
    requires line <= 18
    ensures |Body(text, line)| == 4 * ((|text| + 2) / 3) + (line + |text| / 3) / 19
  {
    hide Quad, Tail;
    if |text| < 3 {
      TailSize(text);
    } else {
      BodySize(text[3..], NextLine(line));
      var n, k := |text|, |text| / 3;
      assert (n - 3) / 3 == k - 1 && (n - 3 + 2) / 3 == (n + 2) / 3 - 1;
      assert line == 18 ==> (18 + k) / 19 == (k - 1) / 19 + 1;
    }
  }

  lemma TailSize(text: seq<bv8>)
    requires |text| < 3
    ensures |Tail(text)| == if text == [] then 0 else 4
  {}

  // ---------------------------------------------------------------------------
  // Decoding
  // ---------------------------------------------------------------------------

  /** The output vector, the index being assembled, and the position within a quad. */
  datatype Decoder = Decoder(out: seq<bv8>, size: nat, quad: nat) {
    /** Twice as much is pushed as is decoded; what was not written is still zero. */
    predicate Valid() {
      && quad < 4 && |out| == 2 * size + (if quad > 0 then 1 else 0)
      && (quad > 0 ==> size < |out|)
      && (forall i :: size + (if quad > 0 then 1 else 0) <= i < |out| ==> out[i] == 0)
    }

    function Put(v: bv8): (d: Decoder)
      requires Valid() && v < 64
      ensures d.Valid()
    {
      match quad
      case 0 =>
        var o := out + [0];
        Decoder(o[size := v << 2], size, 1)
      case 1 =>
        var o := out + [0, 0];
        Decoder(o[size := o[size] | (v >> 4)][size + 1 := (v & 15) << 4], size + 1, 2)
      case 2 =>
        var o := out + [0, 0];
        Decoder(o[size := o[size] | (v >> 2)][size + 1 := (v & 3) << 6], size + 1, 3)
      case _ =>
        var o := out + [0];
        Decoder(o[size := o[size] | v], size + 1, 0)
    }
  }

  const START := Decoder([], 0, 0)

  lemma ValueSplit(c: bv8)
    ensures Value(c) < 64 || Value(c) == 96 || Value(c) == 97 || Value(c) == 98 || Value(c) == 99
  {}

  /** Decoding of the characters still to read, up to the terminating zero that every C
      string has; true only when the decoder stops at padding. */
  function DecodedFrom(s: seq<bv8>, d: Decoder): (r: (seq<bv8>, bool))
    requires d.Valid()
  {
    if s == [] || Value(s[0]) == 96 then (d.out, false)
    else if Value(s[0]) == 97 && (d.quad == 3 || (d.quad == 2 && |s| > 1 && s[1] == PAD)) then (d.out, true)
    else if Value(s[0]) >= 97 then DecodedFrom(s[1..], d)
    else
      ValueSplit(s[0]);
      DecodedFrom(s[1..], d.Put(Value(s[0])))
  }

  function Decoded(s: seq<bv8>): (r: (seq<bv8>, bool)) {
    DecodedFrom(s, START)
  }

  /** The inner switch: shifts the six bits of `value` into place. */
  method Assemble(out0: seq<bv8>, decodeSize0: nat, quadPosition: nat, value: bv8)
    returns (out: seq<bv8>, decodeSize: nat, position: nat)
    requires Decoder(out0, decodeSize0, quadPosition).Valid() && value < 64
    ensures Decoder(out, decodeSize, position) == Decoder(out0, decodeSize0, quadPosition).Put(value)
  {
    out, decodeSize := out0, decodeSize0;
    assert quadPosition < 4 && decodeSize <= |out| && (quadPosition > 0 ==> decodeSize < |out|);
    hide Decoder.Valid;
    match quadPosition {
      case 0 =>
        out := out + [0];
        out := out[decodeSize := value << 2];
      case 1 =>
        out := out + [0, 0];
        out := out[decodeSize := out[decodeSize] | (value >> 4)];
        decodeSize := decodeSize + 1;
        out := out[decodeSize := (value & 15) << 4];
      case 2 =>
        out := out + [0, 0];
        out := out[decodeSize := out[decodeSize] | (value >> 2)];
        decodeSize := decodeSize + 1;
        out := out[decodeSize := (value & 3) << 6];
      case _ =>
        out := out + [0];
        out := out[decodeSize := out[decodeSize] | value];
        decodeSize := decodeSize + 1;
    }
    position := (quadPosition + 1) % 4;
  }

  method Decode(s: seq<bv8>) returns (out: seq<bv8>, ok: bool)
    ensures (out, ok) == Decoded(s)
  {
    out := [];
    var perfectDecode := true;
    var quadPosition: nat, decodeSize: nat, next: nat := 0, 0, 0;
    while true
      invariant next <= |s| && Decoder(out, decodeSize, quadPosition).Valid()
      invariant Decoded(s) == DecodedFrom(s[next..], Decoder(out, decodeSize, quadPosition))
      decreases |s| - next
    {
      // c_str() ends in a zero.
      if next == |s| {
        return out, false;
      }
      hide Value, Decoder.Put;
      var value := Value(s[next]);
      assert s[next..][1..] == s[next + 1..];
      ValueSplit(s[next]);
      next := next + 1;
      if value == 96 {
        return out, false;
      } else if value == 97 {
        if quadPosition == 3 || (quadPosition == 2 && next < |s| && s[next] == PAD) {
          return out, true;
        }
        perfectDecode := false;
      } else if value == 98 {
      } else if value == 99 {
        perfectDecode := false;
      } else {
        out, decodeSize, quadPosition := Assemble(out, decodeSize, quadPosition, value);
      }
    }
  }
}
