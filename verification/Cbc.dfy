/**
 The card client's cryptography over an arbitrary block cipher: 0x80 padding, CBC, and the MAC
 that is the second to last CBC block.
 */
module Cbc {
  import opened Bits

  // AES-256 under one key.
  datatype Cipher = Cipher(enc: seq<byte> -> seq<byte>, dec: seq<byte> -> seq<byte>)

  ghost predicate InvertsAt(c: Cipher, b: seq<byte>) {
    |b| == 16 ==> |c.enc(b)| == 16 && |c.dec(b)| == 16 && c.dec(c.enc(b)) == b && c.enc(c.dec(b)) == b
  }

  ghost predicate IsBlockCipher(c: Cipher) {
    forall b :: InvertsAt(c, b)
  }

  function ZeroBlock(): (z: seq<byte>)
    ensures |z| == 16
  {
    [0, 0, 0, 0, 0, 0, 0, 0, 0, 0, 0, 0, 0, 0, 0, 0]
  }

  // ---------------------------------------------------------------- padding

  function AppendPadding(data: seq<byte>): (out: seq<byte>)
    ensures |out| % 16 == 0 && |data| < |out| <= |data| + 16
  {
    data + [0x80] + seq(15 - |data| % 16, i => 0)
  }

  method AppendPaddingRaw(data: seq<byte>) returns (out: seq<byte>)
    ensures out == AppendPadding(data)
    ensures |out| % 16 == 0 && |data| < |out| <= |data| + 16
    ensures data <= out && out[|data|] == 0x80 && forall i :: |data| < i < |out| ==> out[i] == 0
  {
    var pad := 16 - |data| % 16;
    out := data;
    out := out + [0x80];
    out := out + seq(pad - 1, i => 0);
  }

  // What precedes the last 0x80, or nothing.
  function RemovePadding(data: seq<byte>): (out: seq<byte>)
    ensures out <= data
    ensures 0x80 in data ==> |out| < |data| && data[|out|] == 0x80
    ensures forall i :: |out| < i < |data| ==> data[i] != 0x80
    ensures 0x80 !in data ==> out == []
  {
    if data == [] then []
    else
      var n := |data| - 1;
      if data[n] == 0x80 then data[..n] else RemovePadding(data[..n])
  }

  method RemovePaddingLoop(data: seq<byte>) returns (out: seq<byte>)
    ensures out == RemovePadding(data)
  {
    var i := |data|;
    assert data[..i] == data;
    while i > 0
      invariant i <= |data|
      invariant RemovePadding(data) == RemovePadding(data[..i])
    {
      i := i - 1;
      if data[i] == 0x80 {
        assert data[..i + 1][..i] == data[..i];
        break;
      }
      assert data[..i + 1][..i] == data[..i];
    }
    return data[..i];
  }

  // Padding is removed exactly, also from data that itself contains or ends in 0x80 and zeros.
  lemma {:induction false} RemoveAppended(data: seq<byte>, zeros: nat)
    ensures RemovePadding(data + [0x80] + seq(zeros, i => 0)) == data
  {
    var p := data + [0x80] + seq(zeros, i => 0);
    if zeros == 0 {
      assert p[..|p| - 1] == data;
    } else {
      assert p[..|p| - 1] == data + [0x80] + seq(zeros - 1, i => 0);
      RemoveAppended(data, zeros - 1);
    }
  }

  // ---------------------------------------------------------------- CBC

  function Xor16(a: seq<byte>, b: seq<byte>): (o: seq<byte>)
    requires |a| == 16 && |b| == 16
    ensures |o| == 16
  {
    seq(16, i requires 0 <= i < 16 => XorByte(a[i], b[i]))
  }

  // Bit by bit, the exclusive or of the two blocks.
  lemma Xor16Bits(a: seq<byte>, b: seq<byte>, i: nat, k: nat)
    requires |a| == 16 && |b| == 16 && i < 16 && k < 8
    ensures Bit(Xor16(a, b)[i], k) == (Bit(a[i], k) != Bit(b[i], k))
  {
    hide Bit, Xor;
    BitXor(a[i], b[i], k);
  }

  method Xor16Loop(a: seq<byte>, b: seq<byte>) returns (o: seq<byte>)
    requires |a| == 16 && |b| == 16
    ensures o == Xor16(a, b)
  {
    o := ZeroBlock();
    for i := 0 to 16
      invariant |o| == 16 && forall k :: 0 <= k < i ==> o[k] == XorByte(a[k], b[k])
    {
      o := o[i := XorByte(a[i], b[i])];
    }
  }

  lemma XorTwice(a: seq<byte>, b: seq<byte>)
    requires |a| == 16 && |b| == 16
    ensures Xor16(Xor16(a, b), b) == a
  {
    forall i | 0 <= i < 16 ensures Xor16(Xor16(a, b), b)[i] == a[i] {
      XorCancel(a[i], b[i]);
    }
  }

  function Encrypt(c: Cipher, prev: seq<byte>, data: seq<byte>): (out: seq<byte>)
    requires IsBlockCipher(c) && |prev| == 16 && |data| % 16 == 0
    ensures |out| == |data|
    decreases |data|
  {
    if data == [] then [] else
      var x := Xor16(data[..16], prev);
      assert InvertsAt(c, x);
      var b := c.enc(x);
      b + Encrypt(c, b, data[16..])
  }

  function Decrypt(c: Cipher, prev: seq<byte>, data: seq<byte>): (out: seq<byte>)
    requires IsBlockCipher(c) && |prev| == 16 && |data| % 16 == 0
    ensures |out| == |data|
    decreases |data|
  {
    if data == [] then [] else
      assert InvertsAt(c, data[..16]);
      Xor16(c.dec(data[..16]), prev) + Decrypt(c, data[..16], data[16..])
  }

  lemma BlockLaw(c: Cipher, b: seq<byte>)
    requires IsBlockCipher(c) && |b| == 16
    ensures |c.enc(b)| == 16 && |c.dec(b)| == 16 && c.dec(c.enc(b)) == b
  {
    assert InvertsAt(c, b);
  }

  lemma EncryptStep(c: Cipher, prev: seq<byte>, chunk: seq<byte>, rest: seq<byte>)
    requires IsBlockCipher(c) && |prev| == 16 && |chunk| == 16 && |rest| % 16 == 0
    ensures |c.enc(Xor16(chunk, prev))| == 16
    ensures Encrypt(c, prev, chunk + rest) == c.enc(Xor16(chunk, prev)) + Encrypt(c, c.enc(Xor16(chunk, prev)), rest)
  {
    hide IsBlockCipher, Xor16;
    BlockLaw(c, Xor16(chunk, prev));
    assert (chunk + rest)[..16] == chunk && (chunk + rest)[16..] == rest;
  }

  lemma DecryptStep(c: Cipher, prev: seq<byte>, chunk: seq<byte>, rest: seq<byte>)
    requires IsBlockCipher(c) && |prev| == 16 && |chunk| == 16 && |rest| % 16 == 0
    ensures |c.dec(chunk)| == 16
    ensures Decrypt(c, prev, chunk + rest) == Xor16(c.dec(chunk), prev) + Decrypt(c, chunk, rest)
  {
    hide IsBlockCipher, Xor16;
    BlockLaw(c, chunk);
    assert (chunk + rest)[..16] == chunk && (chunk + rest)[16..] == rest;
  }

  lemma Chunk(data: seq<byte>, i: nat)
    requires i + 16 <= |data|
    ensures data[i..] == data[i..i + 16] + data[i + 16..]
  {
  }

  lemma NoBlocks(c: Cipher, prev: seq<byte>)
    requires IsBlockCipher(c) && |prev| == 16
    ensures Encrypt(c, prev, []) == [] && Decrypt(c, prev, []) == []
  {
  }

  method EncryptRaw(c: Cipher, iv: seq<byte>, data: seq<byte>) returns (out: seq<byte>)
    requires IsBlockCipher(c) && |iv| == 16 && |data| % 16 == 0
    ensures out == Encrypt(c, iv, data)
  {
    hide Xor16, Encrypt, IsBlockCipher;
    out := [];
    var prev := iv;
    var i := 0;
    assert data[0..] == data;
    while i < |data|
      invariant i <= |data| && i % 16 == 0 && |prev| == 16
      invariant Encrypt(c, iv, data) == out + Encrypt(c, prev, data[i..])
    {
      var chunk := data[i..i + 16];
      Chunk(data, i);
      EncryptStep(c, prev, chunk, data[i + 16..]);
      var x := Xor16Loop(chunk, prev);
      prev := c.enc(x);
      out := out + prev;
      i := i + 16;
    }
    NoBlocks(c, prev);
    assert data[i..] == [];
  }

  method DecryptRaw(c: Cipher, iv: seq<byte>, data: seq<byte>) returns (out: seq<byte>)
    requires IsBlockCipher(c) && |iv| == 16 && |data| % 16 == 0
    ensures out == Decrypt(c, iv, data)
  {
    hide Xor16, Decrypt, IsBlockCipher;
    out := [];
    var prev := iv;
    var i := 0;
    assert data[0..] == data;
    while i < |data|
      invariant i <= |data| && i % 16 == 0 && |prev| == 16
      invariant Decrypt(c, iv, data) == out + Decrypt(c, prev, data[i..])
    {
      var chunk := data[i..i + 16];
      Chunk(data, i);
      DecryptStep(c, prev, chunk, data[i + 16..]);
      var p := Xor16Loop(c.dec(chunk), prev);
      prev := chunk;
      out := out + p;
      i := i + 16;
    }
    NoBlocks(c, prev);
    assert data[i..] == [];
  }

  // The i-th block of whole blocks.
  function Block(s: seq<byte>, i: nat): (b: seq<byte>)
    requires 16 * i + 16 <= |s|
    ensures |b| == 16
  {
    s[16 * i..16 * i + 16]
  }

  lemma FirstBlock(first: seq<byte>, rest: seq<byte>)
    requires |first| == 16
    ensures Block(first + rest, 0) == first
  {
  }

  lemma LaterBlock(first: seq<byte>, rest: seq<byte>, i: nat)
    requires |first| == 16 && i > 0 && 16 * i <= |rest|
    ensures Block(first + rest, i) == Block(rest, i - 1)
  {
  }

  // Cipher block chaining, block by block: each plaintext block is combined with the ciphertext
  // block before it, the first with the IV (NIST SP 800-38A, section 6.2).
  lemma {:induction false} EncryptedBlock(c: Cipher, iv: seq<byte>, data: seq<byte>, i: nat)
    requires IsBlockCipher(c) && |iv| == 16 && |data| % 16 == 0 && 16 * i + 16 <= |data|
    ensures var out := Encrypt(c, iv, data);
            Block(out, i) == c.enc(Xor16(Block(data, i), if i == 0 then iv else Block(out, i - 1)))
    decreases i
  {
    hide Xor16, Encrypt, IsBlockCipher, Block;
    var (chunk, tail) := (data[..16], data[16..]);
    var first := c.enc(Xor16(chunk, iv));
    assert data == chunk + tail;
    EncryptStep(c, iv, chunk, tail);
    var rest := Encrypt(c, first, tail);
    FirstBlock(chunk, tail);
    FirstBlock(first, rest);
    if i > 0 {
      EncryptedBlock(c, first, tail, i - 1);
      LaterBlock(chunk, tail, i);
      LaterBlock(first, rest, i);
      if i > 1 {
        LaterBlock(first, rest, i - 1);
      }
    }
  }

  lemma {:induction false} DecryptedBlock(c: Cipher, iv: seq<byte>, data: seq<byte>, i: nat)
    requires IsBlockCipher(c) && |iv| == 16 && |data| % 16 == 0 && 16 * i + 16 <= |data|
    ensures |c.dec(Block(data, i))| == 16
    ensures Block(Decrypt(c, iv, data), i) == Xor16(c.dec(Block(data, i)), if i == 0 then iv else Block(data, i - 1))
    decreases i
  {
    hide Xor16, Decrypt, IsBlockCipher, Block;
    var (chunk, tail) := (data[..16], data[16..]);
    assert data == chunk + tail;
    DecryptStep(c, iv, chunk, tail);
    var (first, rest) := (Xor16(c.dec(chunk), iv), Decrypt(c, chunk, tail));
    FirstBlock(chunk, tail);
    FirstBlock(first, rest);
    if i > 0 {
      DecryptedBlock(c, chunk, tail, i - 1);
      LaterBlock(chunk, tail, i);
      LaterBlock(first, rest, i);
      if i > 1 {
        LaterBlock(chunk, tail, i - 1);
      }
    }
  }

  lemma {:induction false} DecryptEncrypted(c: Cipher, iv: seq<byte>, data: seq<byte>)
    requires IsBlockCipher(c) && |iv| == 16 && |data| % 16 == 0
    ensures Decrypt(c, iv, Encrypt(c, iv, data)) == data
    decreases |data|
  {
    hide Xor16;
    if data != [] {
      var x := Xor16(data[..16], iv);
      BlockLaw(c, x);
      var b := c.enc(x);
      BlockLaw(c, b);
      var rest := Encrypt(c, b, data[16..]);
      assert (b + rest)[..16] == b && (b + rest)[16..] == rest;
      XorTwice(data[..16], iv);
      DecryptEncrypted(c, b, data[16..]);
    }
  }

  // ---------------------------------------------------------------- data

  function EncryptData(c: Cipher, iv: seq<byte>, data: seq<byte>): (out: seq<byte>)
    requires IsBlockCipher(c) && |iv| == 16
    ensures |out| == |data| + 16 - |data| % 16 && |out| % 16 == 0
  {
    Encrypt(c, iv, AppendPadding(data))
  }

  function DecryptData(c: Cipher, iv: seq<byte>, data: seq<byte>): seq<byte>
    requires IsBlockCipher(c) && |iv| == 16 && |data| % 16 == 0
  {
    RemovePadding(Decrypt(c, iv, data))
  }

  lemma DataRoundTrip(c: Cipher, iv: seq<byte>, data: seq<byte>)
    requires IsBlockCipher(c) && |iv| == 16
    ensures DecryptData(c, iv, EncryptData(c, iv, data)) == data
  {
    hide Encrypt, Decrypt, RemovePadding;
    DecryptEncrypted(c, iv, AppendPadding(data));
    RemoveAppended(data, 15 - |data| % 16);
  }

  method EncryptDataRaw(c: Cipher, iv: seq<byte>, data: seq<byte>) returns (out: seq<byte>)
    requires IsBlockCipher(c) && |iv| == 16
    ensures out == EncryptData(c, iv, data)
  {
    var padded := AppendPaddingRaw(data);
    out := EncryptRaw(c, iv, padded);
  }

  method DecryptDataRaw(c: Cipher, iv: seq<byte>, data: seq<byte>) returns (out: seq<byte>)
    requires IsBlockCipher(c) && |iv| == 16 && |data| % 16 == 0
    ensures out == DecryptData(c, iv, data)
  {
    var plain := DecryptRaw(c, iv, data);
    out := RemovePaddingLoop(plain);
  }

  // ---------------------------------------------------------------- the MAC

  // The CBC chaining value after whole blocks: plain CBC-MAC when `prev` is the zero block.
  function Chain(c: Cipher, prev: seq<byte>, data: seq<byte>): (out: seq<byte>)
    requires IsBlockCipher(c) && |prev| == 16 && |data| % 16 == 0
    ensures |out| == 16
    decreases |data|
  {
    if data == [] then prev else
      var x := Xor16(data[..16], prev);
      assert InvertsAt(c, x);
      Chain(c, c.enc(x), data[16..])
  }

  function Mac(c: Cipher, meta: seq<byte>, data: seq<byte>): (mac: seq<byte>)
    requires IsBlockCipher(c) && |meta| == 16
    ensures |mac| == 16
  {
    var ct := Encrypt(c, ZeroBlock(), meta + AppendPadding(data));
    var n := |ct|;
    ct[n - 32..n - 16]
  }

  method CalculateMac(c: Cipher, meta: seq<byte>, data: seq<byte>) returns (mac: seq<byte>)
    requires IsBlockCipher(c) && |meta| == 16
    ensures mac == Mac(c, meta, data)
  {
    var buf := meta;
    var padded := AppendPaddingRaw(data);
    buf := buf + padded;
    var ct := EncryptRaw(c, ZeroBlock(), buf);
    var n := |ct|;
    mac := ct[n - 32..n - 16];
  }

  lemma {:induction false} EncryptAppend(c: Cipher, prev: seq<byte>, a: seq<byte>, b: seq<byte>)
    requires IsBlockCipher(c) && |prev| == 16 && |a| % 16 == 0 && |b| % 16 == 0
    ensures Encrypt(c, prev, a + b) == Encrypt(c, prev, a) + Encrypt(c, Chain(c, prev, a), b)
    decreases |a|
  {
    hide Xor16, IsBlockCipher, Encrypt;
    if a == [] {
      assert a + b == b;
      NoBlocks(c, prev);
    } else {
      var (chunk, rest) := (a[..16], a[16..]);
      EncryptStep(c, prev, chunk, rest);
      EncryptStep(c, prev, chunk, rest + b);
      assert a == chunk + rest && a + b == chunk + (rest + b);
      EncryptAppend(c, c.enc(Xor16(chunk, prev)), rest, b);
    }
  }

  lemma {:induction false} LastBlock(c: Cipher, prev: seq<byte>, data: seq<byte>)
    requires IsBlockCipher(c) && |prev| == 16 && |data| % 16 == 0 && data != []
    ensures Encrypt(c, prev, data)[|data| - 16..] == Chain(c, prev, data)
    decreases |data|
  {
    hide Xor16;
    BlockLaw(c, Xor16(data[..16], prev));
    var b := c.enc(Xor16(data[..16], prev));
    var rest := data[16..];
    if rest == [] {
      assert Encrypt(c, b, rest) == [];
    } else {
      LastBlock(c, b, rest);
      assert (b + Encrypt(c, b, rest))[|data| - 16..] == Encrypt(c, b, rest)[|rest| - 16..];
    }
  }

  // The bytes of the complete blocks of n.
  function WholeBlocks(n: nat): (k: nat)
    ensures k % 16 == 0 && k <= n < k + 16
  {
    n - n % 16
  }

  lemma AllWhole(data: seq<byte>)
    requires |data| % 16 == 0
    ensures data[..WholeBlocks(|data|)] == data
  {
  }

  // The MAC is the block before the last.
  lemma MacIsBlock(c: Cipher, meta: seq<byte>, data: seq<byte>, a: seq<byte>, b: seq<byte>)
    requires IsBlockCipher(c) && |meta| == 16 && |a| >= 16 && |b| == 16
    requires Encrypt(c, ZeroBlock(), meta + AppendPadding(data)) == a + b
    ensures Mac(c, meta, data) == a[|a| - 16..]
  {
    hide Encrypt, IsBlockCipher, AppendPadding, ZeroBlock;
    assert (a + b)[|a| - 16..|a|] == a[|a| - 16..];
  }

  lemma MacOfSplit(c: Cipher, meta: seq<byte>, data: seq<byte>, head: seq<byte>, tail: seq<byte>)
    requires IsBlockCipher(c) && |meta| == 16 && |head| % 16 == 0 && |head| >= 16 && |tail| == 16
    requires meta + AppendPadding(data) == head + tail
    ensures Mac(c, meta, data) == Chain(c, ZeroBlock(), head)
  {
    hide *;
    EncryptAppend(c, ZeroBlock(), head, tail);
    LastBlock(c, ZeroBlock(), head);
    MacIsBlock(c, meta, data, Encrypt(c, ZeroBlock(), head), Encrypt(c, Chain(c, ZeroBlock(), head), tail));
  }

  // The padded data after meta: whole blocks, and one last block.
  lemma PaddingSplit(meta: seq<byte>, data: seq<byte>)
    requires |meta| == 16
    ensures var k := WholeBlocks(|data|);
            && |AppendPadding(data)| == k + 16 && |meta + data[..k]| % 16 == 0
            && meta + AppendPadding(data) == (meta + data[..k]) + AppendPadding(data)[k..]
  {
    var k := WholeBlocks(|data|);
    assert AppendPadding(data)[..k] == data[..k];
  }

  lemma ZeroBlockMeaning()
    ensures ZeroBlock() == seq(16, i => 0)
  {
  }

  // The MAC is the chaining value after meta and all complete blocks of the data.
  lemma MacIsChain(c: Cipher, meta: seq<byte>, data: seq<byte>)
    requires IsBlockCipher(c) && |meta| == 16
    ensures Mac(c, meta, data) == Chain(c, seq(16, i => 0), meta + data[..WholeBlocks(|data|)])
    ensures |data| % 16 == 0 ==> Mac(c, meta, data) == Chain(c, seq(16, i => 0), meta + data)
  {
    ZeroBlockMeaning();
    hide *;
    PaddingSplit(meta, data);
    MacOfSplit(c, meta, data, meta + data[..WholeBlocks(|data|)], AppendPadding(data)[WholeBlocks(|data|)..]);
    if |data| % 16 == 0 {
      AllWhole(data);
    }
  }
}
