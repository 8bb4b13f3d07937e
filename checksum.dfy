/**
 * The checksum service of `getFileChecksum`: the file is fed to a message digest
 * in chunks of at most 1024 bytes, and each byte of the digest is rendered as two
 * lower-case hexadecimal characters.  The digest algorithm itself (SHA-1 in the
 * only caller) is a parameter of the model.
 */
module Checksum {
  import opened Common

  /** Size of the read buffer, `ByteArray(1024)`. */
  const ChunkSize: nat := 1024

  predicate IsHexDigit(c: char) {
    '0' <= c <= '9' || 'a' <= c <= 'f'
  }

  /** The lower-case hexadecimal digit of value `d`, as `Integer.toString(d, 16)` writes it. */
  function HexChar(d: int): (c: char)
    requires 0 <= d < 16
    ensures IsHexDigit(c)
  {
    if d < 10 then ('0' as int + d) as char else ('a' as int + d - 10) as char
  }

  /** `Integer.toString(n, 16)` for a non-negative `n`: no sign, no leading zeros. */
  function IntToHex(n: nat): (s: string)
    ensures |s| >= 1
  {
    if n < 16 then [HexChar(n)] else IntToHex(n / 16) + [HexChar(n % 16)]
  }

  /** One digest byte as the source renders it: `((b and 0xff) + 0x100).toString(16).substring(1)`. */
  function HexByte(b: int8): string {
    IntToHex(Unsigned(b) + 0x100)[1..]
  }

  /** Adding 0x100 before printing and dropping the leading `1` pads every byte to two digits. */
  lemma HexBytePadded(b: int8)
    ensures HexByte(b) == [HexChar(Unsigned(b) / 16), HexChar(Unsigned(b) % 16)]
  {
    var u := Unsigned(b);
    var n := u + 0x100;
    assert n / 16 / 16 == 1 && (n / 16) % 16 == u / 16;
    assert IntToHex(n / 16) == [HexChar(1)] + [HexChar(u / 16)];
  }

  /** The text the `StringBuilder` holds after appending every byte of `s` in order. */
  function HexString(s: seq<int8>): string {
    if s == [] then "" else HexByte(s[0]) + HexString(s[1..])
  }

  lemma {:induction false} HexStringAppend(s: seq<int8>, b: int8)
    ensures HexString(s + [b]) == HexString(s) + HexByte(b)
  {
    if s == [] {
      assert [b][1..] == [];
    } else {
      assert (s + [b])[1..] == s[1..] + [b];
      HexStringAppend(s[1..], b);
    }
  }

  /** Two characters per digest byte: a 20-byte SHA-1 digest gives 40 characters. */
  lemma {:induction false} HexStringLength(s: seq<int8>)
    ensures |HexString(s)| == 2 * |s|
  {
    if s != [] {
      HexBytePadded(s[0]);
      HexStringLength(s[1..]);
    }
  }

  /** Every character of the rendering is a lower-case hexadecimal digit. */
  lemma {:induction false} HexStringLowercase(s: seq<int8>)
    ensures forall i :: 0 <= i < |HexString(s)| ==> IsHexDigit(HexString(s)[i])
  {
    if s != [] {
      HexBytePadded(s[0]);
      HexStringLowercase(s[1..]);
      var h := HexString(s);
      forall i | 0 <= i < |h| ensures IsHexDigit(h[i]) {
        if i >= 2 {
          assert h[i] == HexString(s[1..])[i - 2];
        }
      }
    }
  }

  /** The value of a lower-case hexadecimal digit, `None` for any other character. */
  function HexValue(c: char): (v: Option<int>)
    ensures v.Some? ==> 0 <= v.value < 16
  {
    if '0' <= c <= '9' then Some(c as int - '0' as int)
    else if 'a' <= c <= 'f' then Some(c as int - 'a' as int + 10)
    else None
  }

  /** An independent decoder of the rendering: pairs of digits back to bytes. */
  function ParseHex(s: string): Option<seq<int8>>
    decreases |s|
  {
    if s == [] then Some([])
    else if |s| == 1 then None
    else match (HexValue(s[0]), HexValue(s[1]), ParseHex(s[2..]))
      case (Some(hi), Some(lo), Some(rest)) => Some([Signed(hi * 16 + lo)] + rest)
      case _ => None
  }

  /** The rendering loses nothing: decoding it gives back the digest bytes. */
  lemma {:induction false} ParseHexRoundTrip(s: seq<int8>)
    ensures ParseHex(HexString(s)) == Some(s)
  {
    if s != [] {
      var u := Unsigned(s[0]);
      HexBytePadded(s[0]);
      var h := HexString(s);
      assert h == [HexChar(u / 16), HexChar(u % 16)] + HexString(s[1..]);
      assert h[2..] == HexString(s[1..]);
      assert HexValue(h[0]) == Some(u / 16);
      assert HexValue(h[1]) == Some(u % 16);
      ParseHexRoundTrip(s[1..]);
      assert Signed((u / 16) * 16 + u % 16) == s[0];
      assert ParseHex(h) == Some([s[0]] + s[1..]);
      assert [s[0]] + s[1..] == s;
    }
  }

  /** Distinct digests give distinct checksums. */
  lemma HexStringInjective(s: seq<int8>, t: seq<int8>)
    requires HexString(s) == HexString(t)
    ensures s == t
  {
    ParseHexRoundTrip(s);
    ParseHexRoundTrip(t);
  }

  /** What `fis.read(byteArray)` returns at offset `pos`: -1 at end of file, else the bytes read. */
  function Read(file: seq<int8>, pos: nat): (n: int)
    requires pos <= |file|
    ensures n == -1 <==> pos == |file|
    ensures n != -1 ==> 1 <= n <= ChunkSize && pos + n <= |file|
  {
    if pos == |file| then -1
    else if |file| - pos < ChunkSize then |file| - pos
    else ChunkSize
  }

  /**
   * `getFileChecksum(digest, file)`: the whole file, in order, is fed to `digest`,
   * and the result is its hexadecimal rendering.
   */
  method GetFileChecksum(digest: seq<int8> -> seq<int8>, file: seq<int8>) returns (checksum: string)
    ensures checksum == HexString(digest(file))
    ensures |checksum| == 2 * |digest(file)|
    ensures forall i :: 0 <= i < |checksum| ==> IsHexDigit(checksum[i])
  {
    var fed: seq<int8> := [];  // what `digest.update` has received
    var pos: nat := 0;
    var bytesCount := Read(file, pos);
    while bytesCount != -1
      invariant pos <= |file|
      invariant fed == file[..pos]
      invariant bytesCount == Read(file, pos)
      decreases |file| - pos
    {
      fed := fed + file[pos..pos + bytesCount];
      pos := pos + bytesCount;
      bytesCount := Read(file, pos);
    }
    assert fed == file;
    var bytes := digest(fed);
    var sb := "";
    for i := 0 to |bytes|
      invariant sb == HexString(bytes[..i])
    {
      assert bytes[..i + 1] == bytes[..i] + [bytes[i]];
      HexStringAppend(bytes[..i], bytes[i]);
      sb := sb + HexByte(bytes[i]);
    }
    assert bytes[..|bytes|] == bytes;
    checksum := sb;
    HexStringLength(bytes);
    HexStringLowercase(bytes);
  }
}
