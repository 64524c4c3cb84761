/** SSH key fingerprints and the string helpers of pkg/hcloud/apis/utils.go. */
module Fingerprints {
  import opened Wrappers
  import opened Numerals

  newtype byte = x: int | 0 <= x < 256

  /** An MD5 digest (RFC 1321): 16 bytes. */
  type Digest = d: seq<byte> | |d| == 16 witness seq(16, _ => 0 as byte)

  /** The two library functions a fingerprint is built from: base64 decoding (RFC 4648) and MD5. */
  datatype Hashes = Hashes(base64: string -> Option<seq<byte>>, md5: seq<byte> -> Digest)

  function IndexOf(s: string, c: char): (i: nat)
    ensures i <= |s|
    ensures c !in s[..i]
    ensures i < |s| ==> s[i] == c
  {
    if s == [] || s[0] == c then 0 else
      var i := 1 + IndexOf(s[1..], c);
      assert s[..i] == [s[0]] + s[1..][..i - 1];
      i
  }

  /** strings.SplitN for a one character separator: at most n parts, the last one unsplit. */
  function SplitN(s: string, sep: char, n: nat): (parts: seq<string>)
    requires 1 <= n
    ensures 1 <= |parts| <= n
  {
    var i := IndexOf(s, sep);
    if n == 1 || i == |s| then [s] else [s[..i]] + SplitN(s[i + 1..], sep, n - 1)
  }

  /** The part of a zone name before its first dash. */
  predicate BeforeDash(region: string, zone: string) {
    region <= zone && '-' !in region && (|region| < |zone| ==> zone[|region|] == '-')
  }

  /** The region is the part of a zone name before its first dash. */
  function GetRegionFromZone(zone: string): (region: string)
    ensures BeforeDash(region, zone)
  {
    assert IndexOf(zone, '-') == |zone| ==> zone[..|zone|] == zone;
    SplitN(zone, '-', 2)[0]
  }

  /** There is only one such part. */
  lemma RegionIff(region: string, zone: string)
    ensures BeforeDash(region, zone) <==> region == GetRegionFromZone(zone)
  {
    var r := GetRegionFromZone(zone);
    if BeforeDash(region, zone) {
      assert forall m | 0 <= m < |r| :: zone[m] in r;
      assert forall m | 0 <= m < |region| :: zone[m] in region;
    }
  }

  function HexByte(b: byte): (s: string)
    ensures |s| == 2
  {
    [Digit((b as int / 16) as nat), Digit((b as int % 16) as nat)]
  }

  /** strings.Join with a colon. */
  function Join(parts: seq<string>): string {
    if parts == [] then "" else if |parts| == 1 then parts[0] else parts[0] + ":" + Join(parts[1..])
  }

  function HexBytes(d: seq<byte>): seq<string> {
    seq(|d|, i requires 0 <= i < |d| => HexByte(d[i]))
  }

  /** The fingerprint of a public key, or None when the key has no second field or it is not base64. */
  function Fingerprint(h: Hashes, publicKey: string): Option<string> {
    var parts := SplitN(publicKey, ' ', 3);
    if |parts| < 2 then None else
      match h.base64(parts[1])
      case None => None
      case Some(blob) => Some(Join(HexBytes(h.md5(blob))))
  }

  method GetSSHFingerprint(h: Hashes, publicKey: string) returns (r: Option<string>)
    ensures r == Fingerprint(h, publicKey)
  {
    var parts := SplitN(publicKey, ' ', 3);
    if |parts| < 2 {
      return None;
    }
    var blob := h.base64(parts[1]);
    if blob.None? {
      return None;
    }
    var digest: seq<byte> := h.md5(blob.value);
    var groups := new string[|digest|](_ => "");
    for i := 0 to |digest|
      invariant groups[..i] == HexBytes(digest)[..i]
    {
      groups[i] := HexByte(digest[i]);
    }
    assert groups[..] == HexBytes(digest);
    return Some(Join(groups[..]));
  }

  /** What a fingerprint of d looks like: two hex digits for every byte, a colon between groups. */
  ghost predicate Shaped(s: string, d: seq<byte>) {
    && (|d| == 0 ==> s == "")
    && (|d| > 0 ==> |s| == 3 * |d| - 1)
    && (forall i :: 0 <= i < |d| ==> s[3 * i..3 * i + 2] == HexByte(d[i]))
    && (forall i :: 0 <= i < |d| - 1 ==> s[3 * i + 2] == ':')
  }

  lemma {:induction false} JoinShape(d: seq<byte>)
    ensures Shaped(Join(HexBytes(d)), d)
  {
    var s := Join(HexBytes(d));
    if |d| <= 1 {
    } else {
      JoinShape(d[1..]);
      assert HexBytes(d)[1..] == HexBytes(d[1..]);
      var rest := Join(HexBytes(d[1..]));
      assert s == HexByte(d[0]) + ":" + rest;
      forall i | 0 <= i < |d| ensures s[3 * i..3 * i + 2] == HexByte(d[i]) {
        if i > 0 {
          assert s[3 * i..3 * i + 2] == rest[3 * (i - 1)..3 * (i - 1) + 2];
        }
      }
      forall i | 0 <= i < |d| - 1 ensures s[3 * i + 2] == ':' {
        if i > 0 {
          assert s[3 * i + 2] == rest[3 * (i - 1) + 2];
        }
      }
    }
  }

  lemma HexByteInjective(a: byte, b: byte)
    requires HexByte(a) == HexByte(b)
    ensures a == b
  {
    assert HexByte(a)[0] == HexByte(b)[0] && HexByte(a)[1] == HexByte(b)[1];
  }

  /** A fingerprint has 47 characters, is two lower case hex digits per byte joined by colons, and
      contains a colon, so it can never be read as a decimal number. */
  lemma FingerprintShape(h: Hashes, publicKey: string)
    requires Fingerprint(h, publicKey).Some?
    ensures
      var s := Fingerprint(h, publicKey).value;
      exists d: Digest :: Shaped(s, d) && |s| == 47
    ensures ':' in Fingerprint(h, publicKey).value
  {
    var d := h.md5(h.base64(SplitN(publicKey, ' ', 3)[1]).value);
    JoinShape(d);
    assert Join(HexBytes(d))[2] == ':' by {
      assert Join(HexBytes(d))[3 * 0 + 2] == ':';
    }
  }

  /** Two digests with one fingerprint are the same digest. */
  lemma FingerprintDeterminesDigest(d: Digest, e: Digest)
    requires Join(HexBytes(d)) == Join(HexBytes(e))
    ensures d == e
  {
    JoinShape(d);
    JoinShape(e);
    forall i | 0 <= i < 16 ensures d[i] == e[i] {
      assert HexByte(d[i]) == HexByte(e[i]);
      HexByteInjective(d[i], e[i]);
    }
  }

  /** A decimal id is never the fingerprint of any key. */
  lemma DecimalIsNoFingerprint(h: Hashes, publicKey: string, id: int)
    ensures Fingerprint(h, publicKey) != Some(FormatInt(id))
  {
    NoColon(id);
    if Fingerprint(h, publicKey).Some? {
      FingerprintShape(h, publicKey);
    }
  }

  // ---------- which text is hashed, and how the digest is written ----------

  /** The part of s from position i + 1 up to j lies between the first and the second space, or the end. */
  predicate SecondField(s: string, i: nat, j: nat) {
    && i < j <= |s| && s[i] == ' ' && ' ' !in s[..i]
    && ' ' !in s[i + 1..j] && (j < |s| ==> s[j] == ' ')
  }

  lemma IndexOfIs(s: string, c: char, i: nat)
    requires i <= |s| && c !in s[..i] && (i < |s| ==> s[i] == c)
    ensures IndexOf(s, c) == i
  {
    var k := IndexOf(s, c);
    assert forall m | 0 <= m < k :: s[m] in s[..k];
    assert forall m | 0 <= m < i :: s[m] in s[..i];
  }

  lemma SplitsSecondField(s: string, i: nat, j: nat)
    requires SecondField(s, i, j)
    ensures |SplitN(s, ' ', 3)| >= 2 && SplitN(s, ' ', 3)[1] == s[i + 1..j]
  {
    IndexOfIs(s, ' ', i);
    var rest := s[i + 1..];
    assert rest[..j - i - 1] == s[i + 1..j];
    IndexOfIs(rest, ' ', j - i - 1);
    assert SplitN(s, ' ', 3) == [s[..i]] + SplitN(rest, ' ', 2);
  }

  lemma HexDigit(d: nat)
    requires d < 16
    ensures Digit(d) == "0123456789abcdef"[d]
  {
    if d < 8 {
      if d < 4 {
        if d < 2 { assert d == 0 || d == 1; } else { assert d == 2 || d == 3; }
      } else {
        if d < 6 { assert d == 4 || d == 5; } else { assert d == 6 || d == 7; }
      }
    } else {
      if d < 12 {
        if d < 10 { assert d == 8 || d == 9; } else { assert d == 10 || d == 11; }
      } else {
        if d < 14 { assert d == 12 || d == 13; } else { assert d == 14 || d == 15; }
      }
    }
  }

  /** Byte i of the digest as text: the high digit, then the low one, then a colon unless it is the last byte. */
  ghost predicate WritesHex(s: string, d: seq<byte>)
    requires |s| == 3 * |d| - 1
  {
    && (forall i | 0 <= i < |d| :: s[3 * i] == "0123456789abcdef"[d[i] as int / 16])
    && (forall i | 0 <= i < |d| :: s[3 * i + 1] == "0123456789abcdef"[d[i] as int % 16])
    && (forall i | 0 <= i < |d| - 1 :: s[3 * i + 2] == ':')
  }

  lemma ShapedWritesHex(s: string, d: seq<byte>)
    requires Shaped(s, d) && |d| > 0
    ensures WritesHex(s, d)
  {
    forall i | 0 <= i < |d|
      ensures s[3 * i] == "0123456789abcdef"[d[i] as int / 16]
      ensures s[3 * i + 1] == "0123456789abcdef"[d[i] as int % 16]
    {
      HexDigit(d[i] as int / 16);
      HexDigit(d[i] as int % 16);
      var pair := s[3 * i..3 * i + 2];
      assert pair == HexByte(d[i]);
      assert pair[0] == s[3 * i] && pair[1] == s[3 * i + 1];
    }
  }

  /** The fingerprint of a key with a second field: the MD5 digest of what that field decodes to, in hexadecimal; none
      when it does not decode. */
  lemma FingerprintExactly(h: Hashes, publicKey: string, i: nat, j: nat)
    requires SecondField(publicKey, i, j)
    ensures
      match h.base64(publicKey[i + 1..j])
      case None => Fingerprint(h, publicKey).None?
      case Some(blob) =>
        var s := Fingerprint(h, publicKey);
        s.Some? && |s.value| == 47 && WritesHex(s.value, h.md5(blob))
  {
    SplitsSecondField(publicKey, i, j);
    var blob := h.base64(publicKey[i + 1..j]);
    if blob.Some? {
      JoinShape(h.md5(blob.value));
      ShapedWritesHex(Join(HexBytes(h.md5(blob.value))), h.md5(blob.value));
    }
  }

  /** And none for a key without a space. */
  lemma NoSecondField(h: Hashes, publicKey: string)
    requires ' ' !in publicKey
    ensures Fingerprint(h, publicKey).None?
  {
    assert publicKey[..|publicKey|] == publicKey;
    IndexOfIs(publicKey, ' ', |publicKey|);
  }
}
