/** The identity hasher of workers/counter.js (`hashIP`): the client address
    and a fixed salt are digested with SHA-256 and the first 8 bytes of the
    digest are written out as lower-case hex. The digest itself (TextEncoder
    followed by `crypto.subtle.digest('SHA-256', …)`) is outside the model
    and is passed in as a function. */
module Identity {
  import opened Base

  const Salt := "_1mb_salt_2024"
  const HexDigits := "0123456789abcdef"

  /** An element of a `Uint8Array`. */
  type Byte = b: int | 0 <= b < 256

  /** SHA-256 of the UTF-8 encoding of a string. */
  type Digest = string -> seq<Byte>

  function HexDigit(d: nat): (c: char)
    requires d < 16
    ensures c in HexDigits
  {
    HexDigits[d]
  }

  /** `n.toString(16)` for a non-negative integer. */
  function ToHex(n: nat): (s: string)
    decreases n
  {
    if n < 16 then [HexDigit(n)] else ToHex(n / 16) + [HexDigit(n % 16)]
  }

  /** `s.padStart(width, c)` with a one-character pad. */
  function PadStart(s: string, width: nat, c: char): string {
    if |s| >= width then s else seq(width - |s|, _ => c) + s
  }

  /** `b.toString(16).padStart(2, '0')`: the high and the low nibble of the
      byte, always two digits. */
  function ByteToHex(b: Byte): (s: string)
    ensures s == [HexDigit(b / 16), HexDigit(b % 16)]
  {
    var n: nat := b;
    assert n >= 16 ==> ToHex(n / 16) == [HexDigit(n / 16)];
    PadStart(ToHex(n), 2, '0')
  }

  /** `bytes.map(byteToHex).join('')` */
  function HexJoin(bytes: seq<Byte>): (s: string)
    ensures |s| == 2 * |bytes|
    ensures forall k :: 0 <= k < |s| ==> s[k] in HexDigits
  {
    if bytes == [] then "" else ByteToHex(bytes[0]) + HexJoin(bytes[1..])
  }

  /** `hashIP(ip)`: the first (at most) 8 bytes of the salted digest in hex. */
  function HashIP(digest: Digest, ip: string): string {
    var d := digest(ip + Salt);
    HexJoin(if |d| <= 8 then d else d[..8])
  }

  /** The value of a lower-case hex digit, and 16 for any other character. */
  function HexValue(c: char): (v: nat)
    ensures v <= 16
  {
    if '0' <= c <= '9' then c as int - '0' as int
    else if 'a' <= c <= 'f' then c as int - 'a' as int + 10
    else 16
  }

  /** Reads a string of lower-case hex digit pairs back into bytes. */
  function HexDecode(s: string): Option<seq<Byte>>
    decreases |s|
  {
    if s == [] then Some([])
    else if |s| == 1 || HexValue(s[0]) == 16 || HexValue(s[1]) == 16 then None
    else
      match HexDecode(s[2..])
      case None => None
      case Some(rest) => Some([(HexValue(s[0]) * 16 + HexValue(s[1])) as Byte] + rest)
  }

  lemma HexValueOfDigit(d: nat)
    requires d < 16
    ensures HexValue(HexDigit(d)) == d
  {
  }

  /** The two digits of a byte read back as that byte. */
  lemma ByteToHexValue(b: Byte)
    ensures HexValue(ByteToHex(b)[0]) * 16 + HexValue(ByteToHex(b)[1]) == b
  {
    HexValueOfDigit(b / 16);
    HexValueOfDigit(b % 16);
  }

  /** Decoding reads one byte off the front of its rendering. */
  lemma HexDecodeCons(b: Byte, t: string)
    ensures HexDecode(ByteToHex(b) + t) ==
            match HexDecode(t) case None => None case Some(rest) => Some([b] + rest)
  {
    var h := ByteToHex(b);
    var s := h + t;
    ByteToHexValue(b);
    var v := HexValue(h[0]) * 16 + HexValue(h[1]);
    assert v == b as int;
    assert HexValue(h[0]) != 16 && HexValue(h[1]) != 16;
    assert |s| >= 2 && s[0] == h[0] && s[1] == h[1] && s[2..] == t;
  }

  /** Hex rendering loses nothing: it reads back to the same bytes. */
  lemma {:induction false} HexDecodeJoin(bytes: seq<Byte>)
    ensures HexDecode(HexJoin(bytes)) == Some(bytes)
  {
    if bytes != [] {
      HexDecodeJoin(bytes[1..]);
      HexDecodeCons(bytes[0], HexJoin(bytes[1..]));
      assert [bytes[0]] + bytes[1..] == bytes;
    }
  }

  /** With a 32-byte SHA-256 digest, `hashIP` yields exactly 16 lower-case
      hex characters, and they spell out the digest's first 8 bytes. */
  lemma HashIPShape(digest: Digest, ip: string)
    requires |digest(ip + Salt)| == 32
    ensures |HashIP(digest, ip)| == 16
    ensures forall k :: 0 <= k < 16 ==> HashIP(digest, ip)[k] in HexDigits
    ensures HexDecode(HashIP(digest, ip)) == Some(digest(ip + Salt)[..8])
  {
    HexDecodeJoin(digest(ip + Salt)[..8]);
  }

  /** Two addresses whose salted digests differ in their first 8 bytes get
      different rate-limit hashes. */
  lemma HashIPSeparates(digest: Digest, a: string, b: string)
    requires |digest(a + Salt)| == 32 && |digest(b + Salt)| == 32
    requires digest(a + Salt)[..8] != digest(b + Salt)[..8]
    ensures HashIP(digest, a) != HashIP(digest, b)
  {
    HashIPShape(digest, a);
    HashIPShape(digest, b);
  }
}
