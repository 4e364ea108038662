/** Encrypted files: eight bytes of length, then the contents cut into eight-byte blocks, each
    zero-padded and enciphered on its own. The cipher itself is a parameter. */
module FileEncryptor {
  import opened Wrappers

  newtype octet = x: int | 0 <= x < 256

  const TWO64 := 0x1_0000_0000_0000_0000

  datatype Error = BlockTooLong | NotWholeBlocks | TooShort

  /** A keyed block cipher, started afresh for each block. */
  datatype Cipher = Cipher(blockSize: nat, encipher: seq<octet> -> seq<octet>, decipher: seq<octet> -> seq<octet>) {
    ghost predicate Valid() {
      && blockSize > 0
      && (forall b :: |b| == blockSize ==> |encipher(b)| == blockSize && decipher(encipher(b)) == b)
      && (forall b :: |b| == blockSize ==> |decipher(b)| == blockSize)
    }
  }

  function Zeros(n: nat): seq<octet> { seq(n, _ => 0) }

  function Padded(b: seq<octet>, size: nat): (p: seq<octet>)
    requires |b| <= size
    ensures |p| == size && b <= p
  {
    b + Zeros(size - |b|)
  }

  /** A buffer longer than a block is refused, a shorter one padded with zeros. */
  function Processed(c: Cipher, b: seq<octet>, encrypting: bool): Result<seq<octet>, Error> {
    if |b| > c.blockSize then Err(BlockTooLong)
    else Ok(if encrypting then c.encipher(Padded(b, c.blockSize)) else c.decipher(Padded(b, c.blockSize)))
  }

  // ---------------------------------------------------------------------------
  // The length field
  // ---------------------------------------------------------------------------

  /** `k` bytes of `n`, least significant first. */
  function LittleEndian(n: nat, k: nat): (bs: seq<octet>)
    ensures |bs| == k
  {
    if k == 0 then [] else [(n % 256) as octet] + LittleEndian(n / 256, k - 1)
  }

  function FromLittleEndian(bs: seq<octet>): nat {
    if bs == [] then 0 else bs[0] as nat + 256 * FromLittleEndian(bs[1..])
  }

  function Power(k: nat): nat { if k == 0 then 1 else 256 * Power(k - 1) }

  lemma {:induction false} LittleEndianInverse(n: nat, k: nat)
    requires n < Power(k)
    ensures FromLittleEndian(LittleEndian(n, k)) == n
  {
    if k > 0 {
      LittleEndianInverse(n / 256, k - 1);
      assert LittleEndian(n, k)[1..] == LittleEndian(n / 256, k - 1);
    }
  }

  /** The least significant byte comes first: a small length is its first byte. */
  lemma SmallLength(n: nat, k: nat)
    requires n < 256 && k > 0
    ensures LittleEndian(n, k) == [n as octet] + Zeros(k - 1)
  {
    ZeroLength(k - 1);
  }

  lemma {:induction false} ZeroLength(k: nat)
    ensures LittleEndian(0, k) == Zeros(k)
  {
    if k > 0 {
      ZeroLength(k - 1);
    }
  }

  lemma EightBytes()
    ensures Power(8) == TWO64
  {
    assert Power(2) == 256 * Power(1) && Power(4) == 256 * Power(3) && Power(6) == 256 * Power(5) && Power(8) == 256 * Power(7);
  }

  // ---------------------------------------------------------------------------
  // Encryption and decryption
  // ---------------------------------------------------------------------------

  function Chunk(data: seq<octet>): (b: seq<octet>)
    ensures data != [] ==> 0 < |b| <= |data|
  {
    if |data| < 8 then data else data[..8]
  }

  /** Every eight-byte piece of `data`, the last maybe shorter, processed on its own. */
  function Blocks(c: Cipher, data: seq<octet>, encrypting: bool): Result<seq<octet>, Error> {
    if data == [] then Ok([])
    else
      var first :- Processed(c, Chunk(data), encrypting);
      var rest :- Blocks(c, data[|Chunk(data)|..], encrypting);
      Ok(first + rest)
  }

  function Encrypted(c: Cipher, data: seq<octet>): Result<seq<octet>, Error> {
    var body :- if |data| < 8 then Processed(c, data, true) else Blocks(c, data, true);
    Ok(LittleEndian(|data|, 8) + body)
  }

  /** Reading past the end of a short file yields all ones. */
  function Header(file: seq<octet>): (h: seq<octet>)
    ensures |h| == 8
  {
    if |file| >= 8 then file[..8] else file + seq(8 - |file|, _ => 255)
  }

  function Contents(file: seq<octet>): seq<octet> {
    if |file| >= 8 then file[8..] else []
  }

  /** What is deciphered is appended to the caller's buffer, and the whole cut to the length. */
  function DecryptedInto(c: Cipher, file: seq<octet>, buffer: seq<octet>): Result<seq<octet>, Error> {
    var length, body := FromLittleEndian(Header(file)), Contents(file);
    if |body| % 8 != 0 then Err(NotWholeBlocks)
    else
      var deciphered :- Blocks(c, body, false);
      var out := buffer + deciphered;
      if |out| < length then Err(TooShort) else Ok(out[..length])
  }

  function Decrypted(c: Cipher, file: seq<octet>): Result<seq<octet>, Error> {
    DecryptedInto(c, file, [])
  }

  /** The loop that processes `data` eight bytes at a time. */
  method ProcessBlocks(c: Cipher, data: seq<octet>, encrypting: bool) returns (r: Result<seq<octet>, Error>)
    ensures r == Blocks(c, data, encrypting)
  {
    hide Blocks, Processed;
    var out: seq<octet> := [];
    var idx := 0;
    assert data[0..] == data;
    NothingBefore(Blocks(c, data, encrypting));
    while idx < |data|
      invariant 0 <= idx
      invariant Blocks(c, data, encrypting) == After(out, Blocks(c, if idx <= |data| then data[idx..] else [], encrypting))
    {
      var block: seq<octet>;
      ghost var left := data[idx..];
      if idx + 8 > |data| {
        block := data[idx..];
        assert left[|block|..] == [];
      } else {
        block := data[idx..idx + 8];
        assert left[|block|..] == data[idx + 8..];
      }
      BlocksStep(c, left, block, encrypting, out);
      var p := Processed(c, block, encrypting);
      if p.Err? {
        return p;
      }
      out := out + p.value;
      idx := idx + 8;
    }
    assert (if idx <= |data| then data[idx..] else []) == [];
    NothingAfter(c, out, encrypting);
    return Ok(out);
  }

  function After(out: seq<octet>, rest: Result<seq<octet>, Error>): Result<seq<octet>, Error> {
    if rest.Ok? then Ok(out + rest.value) else rest
  }

  lemma NothingBefore(rest: Result<seq<octet>, Error>)
    ensures After([], rest) == rest
  {
    if rest.Ok? {
      assert [] + rest.value == rest.value;
    }
  }

  lemma NothingAfter(c: Cipher, out: seq<octet>, encrypting: bool)
    ensures After(out, Blocks(c, [], encrypting)) == Ok(out)
  {
    assert out + [] == out;
  }

  lemma BlocksStep(c: Cipher, left: seq<octet>, block: seq<octet>, encrypting: bool, out: seq<octet>)
    requires left != [] && block == Chunk(left)
    ensures var p := Processed(c, block, encrypting);
      After(out, Blocks(c, left, encrypting)) ==
      if p.Err? then p else After(out + p.value, Blocks(c, left[|block|..], encrypting))
  {
    var p, rest := Processed(c, block, encrypting), Blocks(c, left[|block|..], encrypting);
    if p.Ok? && rest.Ok? {
      assert out + (p.value + rest.value) == out + p.value + rest.value;
    }
  }

  /** Appends to the caller's buffer. */
  method Encrypt(c: Cipher, data: seq<octet>, buffer: seq<octet>) returns (r: Result<seq<octet>, Error>)
    requires |data| < TWO64
    ensures r == if Encrypted(c, data).Ok? then Ok(buffer + Encrypted(c, data).value) else Encrypted(c, data)
  {
    hide Processed, Blocks, LittleEndian;
    var target := buffer + LittleEndian(|data|, 8);
    var body;
    if |data| < 8 {
      body := Processed(c, data, true);
    } else {
      body := ProcessBlocks(c, data, true);
    }
    if body.Err? {
      return body;
    }
    assert buffer + (LittleEndian(|data|, 8) + body.value) == target + body.value;
    return Ok(target + body.value);
  }

  method Decrypt(c: Cipher, file: seq<octet>, buffer: seq<octet>) returns (r: Result<seq<octet>, Error>)
    ensures r == DecryptedInto(c, file, buffer)
  {
    hide Blocks;
    var length, body := FromLittleEndian(Header(file)), Contents(file);
    if |body| % 8 != 0 {
      return Err(NotWholeBlocks);
    }
    var out := ProcessBlocks(c, body, false);
    if out.Err? {
      return out;
    }
    if |buffer + out.value| < length {
      return Err(TooShort);
    }
    return Ok((buffer + out.value)[..length]);
  }

  // ---------------------------------------------------------------------------
  // The round trip
  // ---------------------------------------------------------------------------

  /** The number of blocks that `n` bytes take. */
  function BlockCount(n: nat): nat { (n + 7) / 8 }

  /** With eight-byte blocks, enciphering never fails, fills whole blocks, and deciphering gives
      the contents back, padded to whole blocks. */
  lemma {:induction false} BlocksInverse(c: Cipher, data: seq<octet>)
    requires c.Valid() && c.blockSize == 8
    ensures Blocks(c, data, true).Ok?
    ensures var body := Blocks(c, data, true).value;
      && |body| == 8 * BlockCount(|data|)
      && Blocks(c, body, false) == Ok(Padded(data, 8 * BlockCount(|data|)))
  {
    if data != [] {
      hide Padded, Processed;
      var b, rest := Chunk(data), data[|Chunk(data)|..];
      BlocksInverse(c, rest);
      EncipherOne(c, b);
      DecipherFirst(c, b, Blocks(c, rest, true).value);
      PaddedTogether(data);
    }
  }

  lemma EncipherOne(c: Cipher, b: seq<octet>)
    requires c.Valid() && c.blockSize == 8 && |b| <= 8
    ensures Processed(c, b, true) == Ok(c.encipher(Padded(b, 8))) && |c.encipher(Padded(b, 8))| == 8
  {}

  lemma DecipherFirst(c: Cipher, b: seq<octet>, more: seq<octet>)
    requires c.Valid() && c.blockSize == 8 && |b| <= 8
    ensures var rest := Blocks(c, more, false);
      Blocks(c, c.encipher(Padded(b, 8)) + more, false) == if rest.Ok? then Ok(Padded(b, 8) + rest.value) else rest
  {
    var first := c.encipher(Padded(b, 8));
    var body := first + more;
    assert Chunk(body) == first && body[8..] == more;
    assert Padded(first, 8) == first;
    assert Processed(c, first, false) == Ok(Padded(b, 8));
    hide Padded, Processed;
  }

  lemma PaddedTogether(data: seq<octet>)
    requires data != []
    ensures var b, rest := Chunk(data), data[|Chunk(data)|..];
      && |b| <= 8 && BlockCount(|data|) == 1 + BlockCount(|rest|)
      && Padded(b, 8) + Padded(rest, 8 * BlockCount(|rest|)) == Padded(data, 8 * BlockCount(|data|))
  {}

  function Max(a: nat, b: nat): nat { if a < b then b else a }

  /** For any cipher on eight-byte blocks, encrypting succeeds on any contents, takes eight bytes
      and at least one block, and decrypting into an empty buffer gives exactly the contents back. */
  lemma RoundTrip(c: Cipher, data: seq<octet>)
    requires c.Valid() && c.blockSize == 8 && |data| < TWO64
    ensures Encrypted(c, data).Ok?
    ensures |Encrypted(c, data).value| == 8 + 8 * Max(1, BlockCount(|data|))
    ensures Decrypted(c, Encrypted(c, data).value) == Ok(data)
  {
    RoundTripInto(c, data, []);
    var padded := Padded(data, 8 * Max(1, BlockCount(|data|)));
    assert [] + padded == padded && padded[..|data|] == data;
  }

  /** Decrypting into any buffer gives the first bytes of it and the padded contents together. */
  lemma RoundTripInto(c: Cipher, data: seq<octet>, buffer: seq<octet>)
    requires c.Valid() && c.blockSize == 8 && |data| < TWO64
    ensures Encrypted(c, data).Ok?
    ensures |Encrypted(c, data).value| == 8 + 8 * Max(1, BlockCount(|data|))
    ensures var size := 8 * Max(1, BlockCount(|data|));
      |data| <= size && DecryptedInto(c, Encrypted(c, data).value, buffer) == Ok((buffer + Padded(data, size))[..|data|])
  {
    hide *;
    if data == [] {
      EmptyFile(c, buffer);
      LeastOne();
    } else {
      BlocksInverse(c, data);
      EncryptedAs(c, data);
      var body, size := Blocks(c, data, true).value, 8 * BlockCount(|data|);
      WholeBlocks(|data|);
      DecryptedFrom(c, |data|, body, Padded(data, size), buffer);
    }
  }

  lemma LeastOne()
    ensures Max(1, BlockCount(0)) == 1
  {}

  lemma WholeBlocks(n: nat)
    requires n > 0
    ensures n <= 8 * BlockCount(n) == 8 * Max(1, BlockCount(n))
  {}

  lemma EncryptedAs(c: Cipher, data: seq<octet>)
    requires c.Valid() && c.blockSize == 8 && data != [] && Blocks(c, data, true).Ok?
    ensures Encrypted(c, data) == Ok(LittleEndian(|data|, 8) + Blocks(c, data, true).value)
  {
    hide Blocks, LittleEndian, Processed;
    if |data| < 8 {
      OneBlock(c, data);
    }
  }

  lemma DecryptedFrom(c: Cipher, length: nat, body: seq<octet>, out: seq<octet>, buffer: seq<octet>)
    requires length < TWO64 && |body| % 8 == 0 && length <= |out|
    requires Blocks(c, body, false) == Ok(out)
    ensures DecryptedInto(c, LittleEndian(length, 8) + body, buffer) == Ok((buffer + out)[..length])
  {
    hide Blocks, LittleEndian, FromLittleEndian;
    LengthRead(length);
    var file := LittleEndian(length, 8) + body;
    assert Header(file) == LittleEndian(length, 8) && Contents(file) == body;
  }

  lemma LengthRead(n: nat)
    requires n < TWO64
    ensures FromLittleEndian(LittleEndian(n, 8)) == n
  {
    EightBytes();
    LittleEndianInverse(n, 8);
  }

  lemma OneBlock(c: Cipher, data: seq<octet>)
    requires c.Valid() && c.blockSize == 8 && 0 < |data| < 8
    ensures Processed(c, data, true) == Blocks(c, data, true)
  {
    var first := c.encipher(Padded(data, 8));
    assert data[|Chunk(data)|..] == [];
    assert first + [] == first;
  }

  lemma EmptyFile(c: Cipher, buffer: seq<octet>)
    requires c.Valid() && c.blockSize == 8
    ensures Encrypted(c, []).Ok? && |Encrypted(c, []).value| == 16
    ensures DecryptedInto(c, Encrypted(c, []).value, buffer) == Ok((buffer + Padded([], 8))[..0])
  {
    var body := c.encipher(Padded([], 8));
    assert Encrypted(c, []) == Ok(LittleEndian(0, 8) + body);
    DecipherFirst(c, [], []);
    assert body + [] == body && Padded([], 8) + [] == Padded([], 8);
    hide LittleEndian, Processed, Blocks;
    NoBlocks(c);
    DecryptedFrom(c, 0, body, Padded([], 8), buffer);
  }

  lemma NoBlocks(c: Cipher)
    ensures Blocks(c, [], false) == Ok([])
  {}

  // ---------------------------------------------------------------------------
  // The caller's buffer
  // ---------------------------------------------------------------------------

  /** Any contents come back through this buffer. */
  ghost predicate ComesBack(c: Cipher, buffer: seq<octet>) {
    forall data: seq<octet> :: |data| < TWO64 && Encrypted(c, data).Ok? ==>
      DecryptedInto(c, Encrypted(c, data).value, buffer) == Ok(data)
  }

  /** What a buffer held before decryption stands in front of the contents: any contents come back
      if and only if it was empty. */
  lemma EmptyBufferIff(c: Cipher, buffer: seq<octet>)
    requires c.Valid() && c.blockSize == 8
    ensures ComesBack(c, buffer) <==> buffer == []
  {
    hide Encrypted, DecryptedInto, Cipher.Valid;
    if buffer == [] {
      forall data: seq<octet> | |data| < TWO64 && Encrypted(c, data).Ok?
        ensures DecryptedInto(c, Encrypted(c, data).value, buffer) == Ok(data)
      {
        RoundTrip(c, data);
      }
    } else {
      FullBufferFails(c, buffer);
    }
  }

  lemma FullBufferFails(c: Cipher, buffer: seq<octet>)
    requires c.Valid() && c.blockSize == 8 && buffer != []
    ensures var data := [if buffer[0] == 0 then 1 else 0 as octet];
      Encrypted(c, data).Ok? && DecryptedInto(c, Encrypted(c, data).value, buffer) != Ok(data)
  {
    var data := [if buffer[0] == 0 then 1 else 0 as octet];
    RoundTripInto(c, data, buffer);
    hide Encrypted, DecryptedInto, Cipher.Valid;
    var size := 8 * Max(1, BlockCount(|data|));
    assert (buffer + Padded(data, size))[..1][0] == buffer[0];
  }

  // ---------------------------------------------------------------------------
  // Other block sizes
  // ---------------------------------------------------------------------------

  /** Whatever the cipher, as long as it has this block size, files come back. */
  ghost predicate AlwaysRoundTrips(size: nat) {
    forall c: Cipher, data: seq<octet> :: c.Valid() && c.blockSize == size && |data| < TWO64 ==>
      Encrypted(c, data).Ok? && Decrypted(c, Encrypted(c, data).value) == Ok(data)
  }

  function Identity(size: nat): Cipher {
    Cipher(size, b => b, b => b)
  }

  /** The code cuts contents and file alike into eight bytes, so it is right for eight-byte
      ciphers and for no others. */
  lemma RoundTripsIffEight(size: nat)
    requires size > 0
    ensures AlwaysRoundTrips(size) <==> size == 8
  {
    if size == 8 {
      forall c: Cipher, data: seq<octet> | c.Valid() && c.blockSize == size && |data| < TWO64
        ensures Encrypted(c, data).Ok? && Decrypted(c, Encrypted(c, data).value) == Ok(data)
      {
        RoundTrip(c, data);
      }
    } else {
      OtherSizesFail(size);
    }
  }

  /** Eight zeros and eight ones under the identity cipher. */
  lemma OtherSizesFail(size: nat)
    requires size > 0 && size != 8
    ensures var c, data := Identity(size), Zeros(8) + seq(8, _ => 1);
      c.Valid() && !(Encrypted(c, data).Ok? && Decrypted(c, Encrypted(c, data).value) == Ok(data))
  {
    var c, data := Identity(size), Zeros(8) + seq(8, _ => 1);
    assert Chunk(data) == Zeros(8);
    if size > 8 {
      var e := Encrypted(c, data);
      if e.Ok? {
        var first := Padded(Zeros(8), size);
        var body := Blocks(c, data, true).value;
        assert first <= body;
        assert e.value == LittleEndian(16, 8) + body;
        assert Contents(e.value) == body;
        assert Chunk(body) == body[..8] == Zeros(8);
        var d := Decrypted(c, e.value);
        if d.Ok? {
          var out := Blocks(c, body, false).value;
          assert first <= out;
          assert out[8] == 0 && data[8] == 1;
          assert d.value <= out;
        }
      }
    }
  }

  // ---------------------------------------------------------------------------
  // Files that are refused
  // ---------------------------------------------------------------------------

  /** Deciphering whole eight-byte blocks never fails and keeps their size. */
  lemma {:induction false} BlocksDecipher(c: Cipher, body: seq<octet>)
    requires c.Valid() && c.blockSize == 8 && |body| % 8 == 0
    ensures Blocks(c, body, false).Ok? && |Blocks(c, body, false).value| == |body|
  {
    if body != [] {
      assert |Chunk(body)| == 8;
      BlocksDecipher(c, body[8..]);
      hide Padded;
    }
  }

  /** With eight-byte blocks a file is refused if and only if what follows its length is not whole
      blocks, or is with the buffer shorter than that length. */
  lemma RefusedIff(c: Cipher, file: seq<octet>, buffer: seq<octet>)
    requires c.Valid() && c.blockSize == 8
    ensures var r, n := DecryptedInto(c, file, buffer), |Contents(file)|;
      && (r == Err(NotWholeBlocks) <==> n % 8 != 0)
      && (r == Err(TooShort) <==> n % 8 == 0 && |buffer| + n < FromLittleEndian(Header(file)))
      && (r.Ok? ==> |r.value| == FromLittleEndian(Header(file)))
      && r != Err(BlockTooLong)
  {
    if |Contents(file)| % 8 == 0 {
      BlocksDecipher(c, Contents(file));
    }
    hide Blocks, FromLittleEndian, Header, Contents;
  }
}
