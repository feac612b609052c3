/**
 Encryptor: padding, CBC transformation and un-padding of a caller's buffer, in place.

 `EncryptBytes` and `DecryptBytes` say what the methods compute; the theorem about them
 is `DecryptAccepts`: decryption accepts exactly what encryption produces.
 */
module Encryptor {
  import opened Basics
  import Spec = Fips197
  import Cbc = CipherBlockChaining
  import Aes = UnverifiedAes256

  // ----- Padding (RFC 5652 section 6.3)

  /** static_cast<uint8_t> of a padding length. */
  function ToByte(n: nat): byte
    requires n <= BLOCK_BYTES
  {
    n as byte
  }

  /** static_cast<size_t> of a byte. */
  function ToSize(b: byte): nat { b as nat }

  lemma ByteAndSize(b: byte, n: nat)
    requires n <= BLOCK_BYTES
    ensures ToSize(ToByte(n)) == n
    ensures ToSize(b) == n ==> b == ToByte(n)
    ensures (b == 0) == (ToSize(b) == 0)
    ensures (b > 16) == (ToSize(b) > BLOCK_BYTES)
  {}

  /** Key::GetEncryptedSize: the next multiple of the block size that is strictly larger. */
  function GetEncryptedSize(size: nat): (n: nat)
    ensures size < n <= size + BLOCK_BYTES && n % BLOCK_BYTES == 0
  {
    (size / BLOCK_BYTES + 1) * BLOCK_BYTES
  }

  function Fill(b: byte, n: nat): seq<byte> { seq(n, _ => b) }

  function Pad(p: seq<byte>): (d: seq<byte>)
    ensures |d| == GetEncryptedSize(|p|)
  {
    var n := GetEncryptedSize(|p|) - |p|;
    p + Fill(ToByte(n), n)
  }

  /** What DecryptArray makes of the transformed buffer. */
  function Unpad(d: seq<byte>): Option<seq<byte>>
    requires d != []
  {
    var v := d[|d| - 1];
    var n := ToSize(v);
    if v == 0 || v > 16 then None
    else if |d| <= n then None
    else if d[|d| - n..] != Fill(v, n) then None
    else Some(d[..|d| - n])
  }

  /** RFC 5652 section 6.3: between one and sixteen bytes, each with their number, up to a multiple of sixteen. */
  lemma PadIsStandard(p: seq<byte>, i: nat)
    ensures var d := Pad(p);
      && |d| % 16 == 0 && 1 <= |d| - |p| <= 16 && d[..|p|] == p
      && (|p| <= i < |d| ==> d[i] as int == |d| - |p|)
  {
    var d := Pad(p);
    var n := |d| - |p|;
    hide ToByte, ToSize;
    ByteAndSize(0, n);
    if |p| <= i < |d| { assert d[i] == Fill(ToByte(n), n)[i - |p|]; }
    SizeIsInt(ToByte(n));
  }

  lemma SizeIsInt(b: byte)
    ensures ToSize(b) == b as int
  {}

  lemma UnpadOfPad(p: seq<byte>)
    requires p != []
    ensures Unpad(Pad(p)) == Some(p)
  {
    var d, m := Pad(p), GetEncryptedSize(|p|) - |p|;
    var v := d[|d| - 1];
    hide ToByte, ToSize;
    assert v == Fill(ToByte(m), m)[m - 1] == ToByte(m);
    ByteAndSize(v, m);
    assert d[|d| - m..] == Fill(v, m) && d[..|d| - m] == p;
  }

  lemma PadOfUnpad(d: seq<byte>)
    requires d != [] && |d| % BLOCK_BYTES == 0 && Unpad(d).Some?
    ensures Unpad(d).value != [] && d == Pad(Unpad(d).value)
  {
    var v := d[|d| - 1];
    var n := ToSize(v);
    var p := d[..|d| - n];
    ByteAndSize(v, 0);
    hide ToByte, ToSize;
    ByteAndSize(v, n);
    assert d == p + Fill(v, n);
    PadLength(|p|, n);
  }

  lemma PadLength(size: nat, n: nat)
    requires 1 <= n <= BLOCK_BYTES && (size + n) % BLOCK_BYTES == 0
    ensures n == GetEncryptedSize(size) - size
  {}

  // ----- The transformation of values

  ghost function EncryptBytes(k: Spec.Key, iv: Spec.Block, p: seq<byte>): seq<byte> {
    Cbc.Encrypt(Aes.CipherOf(k), iv, |p| / BLOCK_BYTES + 1, Pad(p))
  }

  ghost function DecryptBytes(k: Spec.Key, iv: Spec.Block, c: seq<byte>): Option<seq<byte>> {
    if |c| < BLOCK_BYTES || |c| % BLOCK_BYTES != 0 then None
    else Unpad(Cbc.Decrypt(Aes.InvCipherOf(k), iv, |c| / BLOCK_BYTES, c))
  }

  /** Decryption undoes encryption of every nonempty text. */
  lemma DecryptUndoesEncrypt(k: Spec.Key, iv: Spec.Block, p: seq<byte>)
    requires p != []
    ensures DecryptBytes(k, iv, EncryptBytes(k, iv, p)) == Some(p)
  {
    DecryptAccepts(k, iv, EncryptBytes(k, iv, p), p);
  }

  /** The accepted ciphertexts are precisely the image of encryption, and each has one plaintext. */
  lemma DecryptAccepts(k: Spec.Key, iv: Spec.Block, c: seq<byte>, p: seq<byte>)
    ensures DecryptBytes(k, iv, c) == Some(p) <==> p != [] && c == EncryptBytes(k, iv, p)
  {
    hide Aes.CipherOf, Aes.InvCipherOf, Pad, Unpad, Cbc.Encrypt, Cbc.Decrypt;
    var f, g := Aes.CipherOf(k), Aes.InvCipherOf(k);
    Aes.CbcRoundTrip(k, iv, |p| / BLOCK_BYTES + 1, Pad(p));
    if |c| >= BLOCK_BYTES && |c| % BLOCK_BYTES == 0 {
      var n := |c| / BLOCK_BYTES;
      var d := Cbc.Decrypt(g, iv, n, c);
      Aes.CbcRoundTrip(k, iv, n, c);
      if Unpad(d).Some? {
        PadOfUnpad(d);
      }
    }
    if p != [] {
      UnpadOfPad(p);
    }
  }

  // ----- The key

  class Key {
    const key: array<byte>
    const iv: array<byte>
    var isAvailable: bool

    ghost predicate Valid() {
      key.Length == 32 && iv.Length == BLOCK_BYTES && key != iv
    }

    /** A key with all bytes zero, not yet available. */
    constructor ()
      ensures Valid() && fresh(key) && fresh(iv) && !isAvailable
    {
      key := new byte[32](_ => 0);
      iv := new byte[BLOCK_BYTES](_ => 0);
      isAvailable := false;
    }

    /** `derived` stands for the 40 bytes that GetMSCryptDeriveKeyWithSHA1 makes of password and salt. */
    method DeriveFromPassword(password: seq<byte>, derived: seq<byte>, newIv: Option<Spec.Block>) returns (ok: bool)
      requires Valid() && |derived| == 40
      modifies this, key, iv
      ensures ok == (!old(isAvailable) && password != [])
      ensures ok ==> isAvailable && key[..] == derived[..32]
      ensures ok ==> iv[..] == if newIv.Some? then newIv.value else Fill(0, BLOCK_BYTES)
      ensures !ok ==> isAvailable == old(isAvailable) && key[..] == old(key[..]) && iv[..] == old(iv[..])
    {
      if isAvailable || password == [] {
        return false;
      }
      forall j | 0 <= j < BLOCK_BYTES {
        iv[j] := if newIv.Some? then newIv.value[j] else 0;
      }
      forall j | 0 <= j < 32 {
        key[j] := derived[j];
      }
      isAvailable := true;
      ok := true;
    }
  }

  // ----- Buffers

  /** Encrypts the first `size` bytes of the buffer, whose capacity must hold the padded text. */
  method EncryptArray(key: Key, buf: array?<byte>, size: nat) returns (ok: bool, newSize: nat)
    requires key.Valid() && buf != key.key && buf != key.iv
    requires key.isAvailable && buf != null && size > 0 ==> GetEncryptedSize(size) <= buf.Length
    modifies if buf == null then {} else {buf}
    ensures ok == (key.isAvailable && buf != null && size > 0)
    ensures ok ==>
      && newSize == GetEncryptedSize(size)
      && buf[..newSize] == EncryptBytes(key.key[..], key.iv[..], old(buf[..size]))
      && buf[newSize..] == old(buf[newSize..])
    ensures !ok ==> newSize == size && (buf != null ==> buf[..] == old(buf[..]))
  {
    hide Cbc.Encrypt, Aes.CipherOf;
    newSize := size;
    if !key.isAvailable || buf == null || size == 0 {
      return false, size;
    }
    var encSize := GetEncryptedSize(size);
    var paddingSize := encSize - size;
    var paddingValue := ToByte(paddingSize);
    ghost var p := buf[..size];
    for i := size to encSize
      invariant buf[..i] == p + Fill(paddingValue, i - size)
      invariant buf[encSize..] == old(buf[encSize..])
    {
      buf[i] := paddingValue;
      assert buf[..i + 1] == buf[..i] + [paddingValue];
    }
    assert buf[..encSize] == Pad(p);
    Aes.TransformCBC(key.key, key.iv, buf, encSize / BLOCK_BYTES);
    ok, newSize := true, encSize;
  }

  /** Decrypts in place. A buffer rejected only by its padding is left transformed. */
  method DecryptArray(key: Key, buf: array?<byte>, size: nat) returns (ok: bool, newSize: nat)
    requires key.Valid() && buf != key.key && buf != key.iv
    requires buf != null ==> size <= buf.Length
    modifies if buf == null then {} else {buf}
    ensures ok == (key.isAvailable && buf != null && DecryptBytes(key.key[..], key.iv[..], old(buf[..size])).Some?)
    ensures ok ==> newSize <= size && Some(buf[..newSize]) == DecryptBytes(key.key[..], key.iv[..], old(buf[..size]))
    ensures !ok ==> newSize == size
    ensures buf != null ==> buf[size..] == old(buf[size..])
    ensures buf != null && (!key.isAvailable || size < BLOCK_BYTES || size % BLOCK_BYTES != 0) ==> buf[..] == old(buf[..])
    ensures buf != null && key.isAvailable && size >= BLOCK_BYTES && size % BLOCK_BYTES == 0 ==>
      buf[..size] == Cbc.Decrypt(Aes.InvCipherOf(key.key[..]), key.iv[..], size / BLOCK_BYTES, old(buf[..size]))
  {
    hide Cbc.Decrypt, Aes.InvCipherOf, Unpad;
    newSize := size;
    if !key.isAvailable || buf == null || size == 0 {
      return false, size;
    }
    if size < BLOCK_BYTES || size % BLOCK_BYTES != 0 {
      return false, size;
    }
    Aes.InverseTransformCBC(key.key, key.iv, buf, size / BLOCK_BYTES);
    ok, newSize := StripPadding(buf, size);
  }

  /** The un-padding at the end of DecryptArray. */
  method StripPadding(buf: array<byte>, size: nat) returns (ok: bool, newSize: nat)
    requires 0 < size <= buf.Length
    ensures ok == Unpad(buf[..size]).Some? && newSize <= size
    ensures if ok then Some(buf[..newSize]) == Unpad(buf[..size]) else newSize == size
  {
    ghost var d := buf[..size];
    var paddingValue := buf[size - 1];
    var paddingSize := ToSize(paddingValue);
    if paddingValue == 0x00 || paddingValue > 16 {
      return false, size;
    }
    if size <= paddingSize {
      return false, size;
    }
    var intact := PaddingIntact(buf, size - paddingSize, size, paddingValue);
    assert d[size - paddingSize..] == buf[size - paddingSize..size];
    if !intact {
      return false, size;
    }
    ok, newSize := true, size - paddingSize;
    assert d[..newSize] == buf[..newSize];
  }

  /** The loop of DecryptArray over the padding bytes. */
  method PaddingIntact(buf: array<byte>, lo: nat, hi: nat, paddingValue: byte) returns (intact: bool)
    requires lo <= hi <= buf.Length
    ensures intact == (buf[lo..hi] == Fill(paddingValue, hi - lo))
  {
    for i := lo to hi
      invariant forall j :: lo <= j < i ==> buf[j] == paddingValue
    {
      if buf[i] != paddingValue {
        assert buf[lo..hi][i - lo] != Fill(paddingValue, hi - lo)[i - lo];
        return false;
      }
    }
    intact := true;
  }

  // ----- Strings

  /** std::string, as far as the two methods below use it. */
  class ByteString {
    var data: array<byte>

    constructor (s: seq<byte>)
      ensures data[..] == s && fresh(data)
    {
      data := new byte[|s|](i requires 0 <= i < |s| => s[i]);
    }

    /** Cuts the string, or extends it with zero bytes. */
    method Resize(n: nat)
      modifies this
      ensures fresh(data) && data.Length == n
      ensures n <= old(data.Length) ==> data[..] == old(data[..n])
      ensures n > old(data.Length) ==> data[..] == old(data[..]) + Fill(0, n - old(data.Length))
    {
      var was := data;
      data := new byte[n](i requires 0 <= i < n reads was => if i < was.Length then was[i] else 0);
    }
  }

  /** Without an available key the string has been extended with zeros when the method gives up. */
  method EncryptString(key: Key, data: ByteString?) returns (ok: bool)
    requires key.Valid() && (data != null ==> data.data != key.key && data.data != key.iv)
    modifies if data == null then {} else {data}
    ensures ok == (key.isAvailable && data != null && old(data.data[..]) != [])
    ensures ok ==> data.data[..] == EncryptBytes(key.key[..], key.iv[..], old(data.data[..]))
    ensures ok ==> fresh(data.data)
    ensures !ok && data != null && old(data.data[..]) == [] ==> data.data[..] == []
    ensures !ok && data != null && old(data.data[..]) != [] ==>
      var s := old(data.data[..]);
      data.data[..] == s + Fill(0, GetEncryptedSize(|s|) - |s|)
  {
    hide EncryptBytes;
    if data == null || data.data.Length == 0 {
      return false;
    }
    ghost var s := data.data[..];
    var size := data.data.Length;
    data.Resize(GetEncryptedSize(size));
    assert data.data[..size] == s;
    ok, size := EncryptArray(key, data.data, size);
    assert data.data[..data.data.Length] == data.data[..];
  }

  /** What a string holds when it has been refused: whole blocks have been transformed, anything else is as it was. */
  ghost function LeftBehind(available: bool, k: Spec.Key, iv: Spec.Block, c: seq<byte>): seq<byte> {
    if available && |c| >= BLOCK_BYTES && |c| % BLOCK_BYTES == 0
    then Cbc.Decrypt(Aes.InvCipherOf(k), iv, |c| / BLOCK_BYTES, c)
    else c
  }

  method DecryptString(key: Key, data: ByteString?) returns (ok: bool)
    requires key.Valid() && (data != null ==> data.data != key.key && data.data != key.iv)
    modifies if data == null then {} else {data, data.data}
    ensures ok == (key.isAvailable && data != null && DecryptBytes(key.key[..], key.iv[..], old(data.data[..])).Some?)
    ensures ok ==> Some(data.data[..]) == DecryptBytes(key.key[..], key.iv[..], old(data.data[..]))
    ensures !ok && data != null ==>
      data.data[..] == LeftBehind(key.isAvailable, key.key[..], key.iv[..], old(data.data[..]))
  {
    hide Cbc.Decrypt, Aes.InvCipherOf, Unpad;
    if data == null || data.data.Length == 0 {
      return false;
    }
    var size := data.data.Length;
    assert data.data[..size] == data.data[..];
    ok, size := DecryptArray(key, data.data, size);
    assert data.data[..data.data.Length] == data.data[..];
    if !ok {
      return false;
    }
    data.Resize(size);
  }

  /** Encrypting a nonempty string and decrypting it with the same key restores it. */
  method EncryptThenDecrypt(key: Key, data: ByteString) returns (ok: bool)
    requires key.Valid() && key.isAvailable && data.data[..] != []
    requires data.data != key.key && data.data != key.iv
    modifies data
    ensures ok && data.data[..] == old(data.data[..])
  {
    hide EncryptBytes, DecryptBytes;
    ghost var p := data.data[..];
    ok := EncryptString(key, data);
    DecryptUndoesEncrypt(key.key[..], key.iv[..], p);
    ok := DecryptString(key, data);
  }
}
