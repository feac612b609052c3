/**
 The CBC mode of SP 800-38A section 6.2, over any invertible transformation of blocks.
 */
module CipherBlockChaining {
  import opened Basics
  import opened Fips197

  /** The n blocks of p, encrypted. */
  function Encrypt(f: Block -> Block, iv: Block, n: nat, p: seq<byte>): (c: seq<byte>)
    requires |p| == 16 * n
    ensures |c| == |p|
    decreases n
  {
    if n == 0 then [] else
      var first := f(AddRoundKey(p[..16], iv));
      first + Encrypt(f, first, n - 1, p[16..])
  }

  /** The n blocks of c, decrypted. */
  function Decrypt(g: Block -> Block, iv: Block, n: nat, c: seq<byte>): (p: seq<byte>)
    requires |c| == 16 * n
    ensures |p| == |c|
    decreases n
  {
    if n == 0 then [] else
      AddRoundKey(g(c[..16]), iv) + Decrypt(g, c[..16], n - 1, c[16..])
  }

  lemma EncryptStep(f: Block -> Block, iv: Block, n: nat, p: seq<byte>)
    requires |p| == 16 * n && n > 0
    ensures var first := f(AddRoundKey(p[..16], iv));
      Encrypt(f, iv, n, p) == first + Encrypt(f, first, n - 1, p[16..])
  {
    hide AddRoundKey;
  }

  lemma DecryptStep(g: Block -> Block, iv: Block, n: nat, c: seq<byte>)
    requires |c| == 16 * n && n > 0
    ensures Decrypt(g, iv, n, c) == AddRoundKey(g(c[..16]), iv) + Decrypt(g, c[..16], n - 1, c[16..])
  {
    hide AddRoundKey;
  }

  ghost predicate Inverses(f: Block -> Block, g: Block -> Block) {
    forall s: Block :: g(f(s)) == s && f(g(s)) == s
  }

  lemma {:induction false} DecryptOfEncrypt(f: Block -> Block, g: Block -> Block, iv: Block, n: nat, s: seq<byte>)
    requires Inverses(f, g) && |s| == 16 * n
    ensures Decrypt(g, iv, n, Encrypt(f, iv, n, s)) == s
    decreases n
  {
    hide AddRoundKey;
    if n > 0 {
      var x: Block, tail := s[..16], s[16..];
      AddRoundKeyInverse(x, iv);
      var c := f(AddRoundKey(x, iv));
      DecryptOfEncrypt(f, g, c, n - 1, tail);
      var e := Encrypt(f, iv, n, s);
      assert e[..16] == c && e[16..] == Encrypt(f, c, n - 1, tail);
    }
  }

  lemma {:induction false} EncryptOfDecrypt(f: Block -> Block, g: Block -> Block, iv: Block, n: nat, s: seq<byte>)
    requires Inverses(f, g) && |s| == 16 * n
    ensures Encrypt(f, iv, n, Decrypt(g, iv, n, s)) == s
    decreases n
  {
    hide AddRoundKey;
    if n > 0 {
      var x: Block, tail := s[..16], s[16..];
      AddRoundKeyInverse(g(x), iv);
      var p := AddRoundKey(g(x), iv);
      EncryptOfDecrypt(f, g, x, n - 1, tail);
      var d := Decrypt(g, iv, n, s);
      assert d[..16] == p && d[16..] == Decrypt(g, x, n - 1, tail);
    }
  }

  /** Chained decryption and chained encryption undo each other, for every IV and block count. */
  lemma RoundTrip(f: Block -> Block, g: Block -> Block, iv: Block, n: nat, s: seq<byte>)
    requires Inverses(f, g)
    requires |s| == 16 * n
    ensures Decrypt(g, iv, n, Encrypt(f, iv, n, s)) == s
    ensures Encrypt(f, iv, n, Decrypt(g, iv, n, s)) == s
  {
    hide Encrypt, Decrypt;
    DecryptOfEncrypt(f, g, iv, n, s);
    EncryptOfDecrypt(f, g, iv, n, s);
  }

  function BlockAt(s: seq<byte>, i: nat): Block
    requires 16 * i + 16 <= |s|
  {
    s[16 * i..16 * i + 16]
  }

  lemma BlockBehind(first: Block, rest: seq<byte>, i: nat)
    requires 16 * i + 16 <= |rest|
    ensures BlockAt(first + rest, i + 1) == BlockAt(rest, i)
  {}

  /** Each block is encrypted with the one before it added, the first with the IV. */
  lemma {:induction false} Chained(f: Block -> Block, iv: Block, n: nat, p: seq<byte>, i: nat)
    requires |p| == 16 * n && i < n
    ensures var c := Encrypt(f, iv, n, p);
      BlockAt(c, i) == f(AddRoundKey(BlockAt(p, i), if i == 0 then iv else BlockAt(c, i - 1)))
    decreases n
  {
    hide AddRoundKey, Encrypt, BlockAt;
    var x: Block, tail := p[..16], p[16..];
    assert p == x + tail;
    var first := f(AddRoundKey(x, iv));
    EncryptStep(f, iv, n, p);
    FirstBlock(x, tail);
    FirstBlock(first, Encrypt(f, first, n - 1, tail));
    if i > 0 {
      Chained(f, first, n - 1, tail, i - 1);
      BlockBehind(x, tail, i - 1);
      BlockBehind(first, Encrypt(f, first, n - 1, tail), i - 1);
      if i > 1 { BlockBehind(first, Encrypt(f, first, n - 1, tail), i - 2); }
    }
  }

  lemma FirstBlock(first: Block, rest: seq<byte>)
    ensures BlockAt(first + rest, 0) == first
  {}

  // ----- Writing into a buffer

  /** s with x written over it from o on. */
  function Splice(s: seq<byte>, o: nat, x: seq<byte>): (r: seq<byte>)
    requires o + |x| <= |s|
    ensures |r| == |s|
  {
    s[..o] + x + s[o + |x|..]
  }

  // ----- Encryption in place, block after block

  /** Buffer b and chaining value vec after i of n turns over the blocks of p. */
  ghost predicate Encrypting(f: Block -> Block, iv: Block, n: nat, p: seq<byte>, i: nat, b: seq<byte>, vec: Block) {
    && i <= n && |b| == |p| && 16 * n <= |p|
    && b[16 * i..] == p[16 * i..]
    && Encrypt(f, iv, n, p[..16 * n]) == b[..16 * i] + Encrypt(f, vec, n - i, p[16 * i..16 * n])
  }

  lemma EncryptingStart(f: Block -> Block, iv: Block, n: nat, p: seq<byte>)
    requires 16 * n <= |p|
    ensures Encrypting(f, iv, n, p, 0, p, iv)
  {
    hide Encrypt;
    assert p[0..16 * n] == p[..16 * n];
    assert p[..0] + Encrypt(f, iv, n, p[..16 * n]) == Encrypt(f, iv, n, p[..16 * n]);
  }

  lemma EncryptingTurn(f: Block -> Block, iv: Block, n: nat, p: seq<byte>, i: nat, b: seq<byte>, vec: Block, next: Block)
    requires Encrypting(f, iv, n, p, i, b, vec) && i < n
    requires next == f(AddRoundKey(b[16 * i..16 * i + 16], vec))
    ensures Encrypting(f, iv, n, p, i + 1, Splice(b, 16 * i, next), next)
  {
    hide AddRoundKey, Encrypt;
    var o, done := 16 * i, b[..16 * i];
    var rest, tail := p[o..16 * n], p[16 * (i + 1)..16 * n];
    assert b[o..o + 16] == b[o..][..16] == rest[..16] && rest[16..] == tail;
    EncryptStep(f, vec, n - i, rest);
    Regroup(done, next, Encrypt(f, next, n - i - 1, tail));
    var after := Splice(b, o, next);
    assert after[..o + 16] == done + next;
    assert after[o + 16..] == b[o..][16..] == p[o..][16..] == p[o + 16..];
  }

  lemma EncryptingEnd(f: Block -> Block, iv: Block, n: nat, p: seq<byte>, b: seq<byte>, vec: Block)
    requires Encrypting(f, iv, n, p, n, b, vec)
    ensures b[..16 * n] == Encrypt(f, iv, n, p[..16 * n]) && b[16 * n..] == p[16 * n..]
  {}

  // ----- Decryption in place, block after block

  /** Buffer b and chaining value vec after i of n turns over the blocks of p. */
  ghost predicate Decrypting(g: Block -> Block, iv: Block, n: nat, p: seq<byte>, i: nat, b: seq<byte>, vec: Block) {
    && i <= n && |b| == |p| && 16 * n <= |p|
    && b[16 * i..] == p[16 * i..]
    && Decrypt(g, iv, n, p[..16 * n]) == b[..16 * i] + Decrypt(g, vec, n - i, p[16 * i..16 * n])
  }

  lemma DecryptingStart(g: Block -> Block, iv: Block, n: nat, p: seq<byte>)
    requires 16 * n <= |p|
    ensures Decrypting(g, iv, n, p, 0, p, iv)
  {
    hide Decrypt;
    assert p[0..16 * n] == p[..16 * n];
    assert p[..0] + Decrypt(g, iv, n, p[..16 * n]) == Decrypt(g, iv, n, p[..16 * n]);
  }

  lemma DecryptingTurn(g: Block -> Block, iv: Block, n: nat, p: seq<byte>, i: nat, b: seq<byte>, vec: Block, next: Block)
    requires Decrypting(g, iv, n, p, i, b, vec) && i < n
    requires next == b[16 * i..16 * i + 16]
    ensures Decrypting(g, iv, n, p, i + 1, Splice(b, 16 * i, AddRoundKey(g(next), vec)), next)
  {
    hide AddRoundKey, Decrypt;
    var o, done := 16 * i, b[..16 * i];
    var rest, tail := p[o..16 * n], p[16 * (i + 1)..16 * n];
    assert next == b[o..][..16] == rest[..16] && rest[16..] == tail;
    DecryptStep(g, vec, n - i, rest);
    var x := AddRoundKey(g(next), vec);
    Regroup(done, x, Decrypt(g, next, n - i - 1, tail));
    var after := Splice(b, o, x);
    assert after[..o + 16] == done + x;
    assert after[o + 16..] == b[o..][16..] == p[o..][16..] == p[o + 16..];
  }

  lemma DecryptingEnd(g: Block -> Block, iv: Block, n: nat, p: seq<byte>, b: seq<byte>, vec: Block)
    requires Decrypting(g, iv, n, p, n, b, vec)
    ensures b[..16 * n] == Decrypt(g, iv, n, p[..16 * n]) && b[16 * n..] == p[16 * n..]
  {}
}
