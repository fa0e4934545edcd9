/**
  The pure helpers of src/utils/util.js: the deterministic identifier of a
  two-party conversation (an MD5 digest of the two user ids, stamped with the
  version and variant bits of RFC 4122 and printed in its 8-4-4-4-12 layout),
  and the hex decoder `hexToBytes`.
*/
module Util {

  // ---------------------------------------------------------------------------
  // Ordering of the two user ids
  // ---------------------------------------------------------------------------

  /** The string order of `a < b`: lexicographic on characters, a proper prefix
      being smaller. Characters are Unicode code points here, where JavaScript
      compares UTF-16 code units. (Dafny's own `<` on sequences means "proper
      prefix".) */
  predicate LexLess(a: string, b: string)
  {
    if a == [] then b != []
    else if b == [] then false
    else a[0] < b[0] || (a[0] == b[0] && LexLess(a[1..], b[1..]))
  }

  /** `LexLess` is irreflexive, asymmetric and total on distinct strings;
      with `LexLessTransitive` it is a strict total order. */
  lemma {:induction false} LexLessTrichotomy(a: string, b: string)
    ensures !LexLess(a, a)
    ensures LexLess(a, b) ==> !LexLess(b, a)
    ensures a != b ==> LexLess(a, b) || LexLess(b, a)
  {
    if a != [] {
      LexLessTrichotomy(a[1..], a[1..]);
      if b != [] {
        LexLessTrichotomy(a[1..], b[1..]);
      }
    }
  }

  /** `LexLess` is transitive. */
  lemma {:induction false} LexLessTransitive(a: string, b: string, c: string)
    requires LexLess(a, b) && LexLess(b, c)
    ensures LexLess(a, c)
  {
    if a != [] && a[0] == b[0] && b[0] == c[0] {
      LexLessTransitive(a[1..], b[1..], c[1..]);
    }
  }

  /** Lines 10-13: `[minId, maxId]` is the pair put in ascending order. */
  function CanonicalOrder(userId: string, recipientId: string): (p: (string, string))
    ensures {p.0, p.1} == {userId, recipientId}
    ensures !LexLess(p.1, p.0)
  {
    if LexLess(recipientId, userId) then
      LexLessTrichotomy(recipientId, userId);
      (recipientId, userId)
    else
      (userId, recipientId)
  }

  /** The canonical pair does not depend on which side is the caller. */
  lemma CanonicalOrderSymmetric(a: string, b: string)
    ensures CanonicalOrder(a, b) == CanonicalOrder(b, a)
  {
    LexLessTrichotomy(a, b);
  }

  // ---------------------------------------------------------------------------
  // Digest and version stamping
  // ---------------------------------------------------------------------------

  /** A 16-byte (128-bit) MD5 digest. */
  type Digest = s: seq<bv8> | |s| == 16 witness [0, 0, 0, 0, 0, 0, 0, 0, 0, 0, 0, 0, 0, 0, 0, 0]

  /** The MD5 function of the crypto library, applied to everything fed to
      `update`; it is a parameter of the model, so nothing is assumed of it
      beyond its 16-byte result. */
  type Md5 = string -> Digest

  /** Lines 20-21: byte 6 gets version 3 in its high nibble (section 4.1.3 of
      RFC 4122) and byte 8 gets the variant bits `10` (section 4.1.1). */
  function StampVersion(d: Digest): (r: Digest)
    ensures r[6] as int / 16 == 3 && r[6] as int % 16 == d[6] as int % 16
    ensures r[8] as int / 64 == 2 && r[8] as int % 64 == d[8] as int % 64
    ensures forall i :: 0 <= i < 16 && i != 6 && i != 8 ==> r[i] == d[i]
  {
    VersionNibble(d[6]);
    VariantBits(d[8]);
    d[6 := (d[6] & 0x0f) | 0x30][8 := (d[8] & 0x3f) | 0x80]
  }

  lemma VersionNibble(b: bv8)
    ensures ((b & 0x0f) | 0x30) as int / 16 == 3
    ensures ((b & 0x0f) | 0x30) as int % 16 == b as int % 16
  {
  }

  lemma VariantBits(b: bv8)
    ensures ((b & 0x3f) | 0x80) as int / 64 == 2
    ensures ((b & 0x3f) | 0x80) as int % 64 == b as int % 64
  {
  }

  // ---------------------------------------------------------------------------
  // Hex rendering (line 23) and the 8-4-4-4-12 layout (lines 24-27)
  // ---------------------------------------------------------------------------

  const LowerHexDigits: string := "0123456789abcdef"

  function HexDigit(n: nat): char
    requires n < 16
  {
    LowerHexDigits[n]
  }

  predicate IsLowerHex(c: char)
  {
    c in LowerHexDigits
  }

  /** `n.toString(16)` for a non-negative integer: lowercase, no leading zero. */
  function ToRadix16(n: nat): (s: string)
    ensures 1 <= |s|
    ensures forall k :: 0 <= k < |s| ==> IsLowerHex(s[k])
  {
    if n < 16 then [HexDigit(n)] else ToRadix16(n / 16) + [HexDigit(n % 16)]
  }

  /** `s.slice(-k)`: the last `k` characters, or all of `s` when it is shorter. */
  function SliceLast(s: string, k: nat): (r: string)
    ensures |r| == if |s| <= k then |s| else k
    ensures r == s[|s| - |r|..]
  {
    if |s| <= k then s else s[|s| - k..]
  }

  /** The two lowercase hex digits of a byte, high nibble first. */
  function HexByte(b: bv8): string
  {
    [HexDigit(Nibble(b, 0)), HexDigit(Nibble(b, 1))]
  }

  /** Line 23, one byte, as written: `` `0${(byte & 0xff).toString(16)}`.slice(-2) ``
      is always exactly the two hex digits of the byte. */
  function RenderByte(b: bv8): (s: string)
    ensures s == HexByte(b)
  {
    HexByteDigits(b);
    SliceLast("0" + ToRadix16((b & 0xff) as int), 2)
  }

  lemma HexByteDigits(b: bv8)
    ensures SliceLast("0" + ToRadix16((b & 0xff) as int), 2) == [HexDigit(Nibble(b, 0)), HexDigit(Nibble(b, 1))]
  {
    var n := (b & 0xff) as int;
    assert n == b as int;
    if n >= 16 {
      assert ToRadix16(n / 16) == [HexDigit(n / 16)];
    }
  }

  /** The nibble of `b` that the `j`-th character (0 or 1) of its rendering shows. */
  function Nibble(b: bv8, j: nat): (n: nat)
    requires j < 2
    ensures n < 16
  {
    if j == 0 then b as int / 16 else b as int % 16
  }

  /** Line 23, whole digest: `Array.from(bytes, …).join('')`, each byte
      rendered as `RenderByte` does. */
  function HexString(bs: seq<bv8>): (s: string)
    ensures |s| == 2 * |bs|
  {
    if bs == [] then [] else HexByte(bs[0]) + HexString(bs[1..])
  }

  /** Character `k` of the rendering shows nibble `k % 2` of byte `k / 2`. */
  lemma {:induction false} HexStringAt(bs: seq<bv8>, k: nat)
    requires k < 2 * |bs|
    ensures HexString(bs)[k] == HexDigit(Nibble(bs[k / 2], k % 2))
  {
    var head := HexByte(bs[0]);
    assert HexString(bs) == head + HexString(bs[1..]);
    if k >= 2 {
      HexStringAt(bs[1..], k - 2);
      assert (k - 2) / 2 == k / 2 - 1 && (k - 2) % 2 == k % 2;
      assert bs[1..][k / 2 - 1] == bs[k / 2];
    } else {
      assert k / 2 == 0 && k % 2 == k;
      assert HexString(bs)[k] == head[k];
    }
  }

  /** Every character of the rendering is a lowercase hex digit. */
  lemma HexStringIsLowerHex(bs: seq<bv8>)
    ensures forall k :: 0 <= k < |HexString(bs)| ==> IsLowerHex(HexString(bs)[k])
  {
    forall k | 0 <= k < |HexString(bs)|
      ensures IsLowerHex(HexString(bs)[k])
    {
      HexStringAt(bs, k);
    }
  }

  /** The positions of the four hyphens in the 36-character layout. */
  predicate IsHyphenPos(k: int)
  {
    k == 8 || k == 13 || k == 18 || k == 23
  }

  /** The digest character shown at layout position `k` (not a hyphen). */
  function DigestIndex(k: nat): (i: nat)
    requires k < 36 && !IsHyphenPos(k)
    ensures i < 32
  {
    if k < 8 then k else if k < 13 then k - 1 else if k < 18 then k - 2 else if k < 23 then k - 3 else k - 4
  }

  /** Lines 24-27: the digest split 8-4-4-4-12 and joined with hyphens. */
  function FormatUuid(digest: string): (r: string)
    requires |digest| == 32
    ensures |r| == 36
  {
    digest[0..8] + "-" + digest[8..12] + "-" + digest[12..16] + "-" + digest[16..20] + "-" + digest[20..32]
  }

  /** Position `k` of the layout holds a hyphen or the digest character it shows. */
  lemma FormatUuidAt(digest: string, k: nat)
    requires |digest| == 32 && k < 36
    ensures FormatUuid(digest)[k] == if IsHyphenPos(k) then '-' else digest[DigestIndex(k)]
  {
    var g0, g1, g2, g3, g4 := digest[0..8], digest[8..12], digest[12..16], digest[16..20], digest[20..32];
    var a := g0 + "-";
    var b := a + g1 + "-";
    var c := b + g2 + "-";
    var d := c + g3 + "-";
    assert FormatUuid(digest) == d + g4;
    if k >= |d| {
      assert FormatUuid(digest)[k] == g4[k - |d|];
    } else if k >= |c| {
      assert FormatUuid(digest)[k] == d[k];
    } else if k >= |b| {
      assert FormatUuid(digest)[k] == c[k];
    } else if k >= |a| {
      assert FormatUuid(digest)[k] == b[k];
    } else {
      assert FormatUuid(digest)[k] == a[k];
    }
  }

  /** Deleting every `-` from a string. */
  function RemoveHyphens(s: string): (r: string)
    ensures forall k :: 0 <= k < |r| ==> r[k] != '-'
  {
    if s == [] then [] else (if s[0] == '-' then [] else [s[0]]) + RemoveHyphens(s[1..])
  }

  lemma {:induction false} RemoveHyphensAppend(a: string, b: string)
    ensures RemoveHyphens(a + b) == RemoveHyphens(a) + RemoveHyphens(b)
  {
    if a != [] {
      var head := if a[0] == '-' then [] else [a[0]];
      assert (a + b)[0] == a[0];
      assert (a + b)[1..] == a[1..] + b;
      RemoveHyphensAppend(a[1..], b);
      calc {
        RemoveHyphens(a + b);
        head + RemoveHyphens((a + b)[1..]);
        head + RemoveHyphens(a[1..] + b);
        head + (RemoveHyphens(a[1..]) + RemoveHyphens(b));
        (head + RemoveHyphens(a[1..])) + RemoveHyphens(b);
      }
    } else {
      assert a + b == b;
    }
  }

  lemma {:induction false} RemoveHyphensNone(s: string)
    requires forall k :: 0 <= k < |s| ==> s[k] != '-'
    ensures RemoveHyphens(s) == s
  {
    if s != [] {
      RemoveHyphensNone(s[1..]);
    }
  }

  /** Removing the hyphens around one joining hyphen. */
  lemma RemoveHyphensJoin(x: string, y: string)
    ensures RemoveHyphens(x + "-" + y) == RemoveHyphens(x) + RemoveHyphens(y)
  {
    var h: string := "-";
    assert RemoveHyphens(h) == [] by {
      assert h[1..] == [];
    }
    var xh := RemoveHyphens(x + h);
    assert xh == RemoveHyphens(x) by {
      RemoveHyphensAppend(x, h);
      assert RemoveHyphens(x) + [] == RemoveHyphens(x);
    }
    RemoveHyphensAppend(x + h, y);
  }

  /** Removing the hyphens from the formatted identifier gives the digest back. */
  lemma FormatUuidRemoveHyphens(digest: string)
    requires |digest| == 32
    requires forall k :: 0 <= k < 32 ==> digest[k] != '-'
    ensures RemoveHyphens(FormatUuid(digest)) == digest
  {
    var g0, g1, g2, g3, g4 := digest[0..8], digest[8..12], digest[12..16], digest[16..20], digest[20..32];
    var b := g0 + "-" + g1;
    var c := b + "-" + g2;
    var d := c + "-" + g3;
    assert RemoveHyphens(b) == digest[0..12] by {
      RemoveHyphensNone(g0);
      RemoveHyphensNone(g1);
      RemoveHyphensJoin(g0, g1);
      assert digest[0..12] == g0 + g1;
    }
    assert RemoveHyphens(c) == digest[0..16] by {
      RemoveHyphensNone(g2);
      RemoveHyphensJoin(b, g2);
      assert digest[0..16] == digest[0..12] + g2;
    }
    assert RemoveHyphens(d) == digest[0..20] by {
      RemoveHyphensNone(g3);
      RemoveHyphensJoin(c, g3);
      assert digest[0..20] == digest[0..16] + g3;
    }
    assert RemoveHyphens(d + "-" + g4) == digest by {
      RemoveHyphensNone(g4);
      RemoveHyphensJoin(d, g4);
      assert digest == digest[0..20] + g4;
    }
    assert FormatUuid(digest) == d + "-" + g4;
  }

  // ---------------------------------------------------------------------------
  // generateConversationId (lines 6-28)
  // ---------------------------------------------------------------------------

  /** Shape of an RFC 4122 string: 36 characters, hyphens at 8, 13, 18 and 23,
      lowercase hex digits everywhere else. */
  predicate IsUuidText(id: string)
  {
    |id| == 36 &&
    forall k :: 0 <= k < 36 ==> if IsHyphenPos(k) then id[k] == '-' else IsLowerHex(id[k])
  }

  /** The digest that the identifier prints: MD5 of the smaller id followed by
      the larger one, stamped with version and variant. */
  function StampedDigest(md5: Md5, userId: string, recipientId: string): Digest
  {
    var (minId, maxId) := CanonicalOrder(userId, recipientId);
    StampVersion(md5(minId + maxId))
  }

  /** The identifier of the direct conversation between two users. It is
      well-formed, shows version 3 at position 14 and a variant digit in
      {8, 9, a, b} at position 19. */
  function GenerateConversationId(md5: Md5, userId: string, recipientId: string): (id: string)
    ensures IsUuidText(id)
    ensures id[14] == '3'
    ensures id[19] in "89ab"
  {
    var bytes := StampedDigest(md5, userId, recipientId);
    StampedLayout(bytes);
    FormatUuid(HexString(bytes))
  }

  /** A digest stamped with version 3 and the RFC 4122 variant prints as a
      well-formed identifier showing both. */
  lemma StampedLayout(bytes: Digest)
    requires bytes[6] as int / 16 == 3 && bytes[8] as int / 64 == 2
    ensures var id := FormatUuid(HexString(bytes));
      IsUuidText(id) && id[14] == '3' && id[19] in "89ab"
  {
    HexStringIsLowerHex(bytes);
    UuidLayout(HexString(bytes));
    StampedDigits(bytes);
  }

  /** The version digit is the 13th of the rendering and the variant digit
      the 17th. */
  lemma StampedDigits(bytes: Digest)
    requires bytes[6] as int / 16 == 3 && bytes[8] as int / 64 == 2
    ensures HexString(bytes)[12] == '3' && HexString(bytes)[16] in "89ab"
  {
    HexStringAt(bytes, 12);
    HexStringAt(bytes, 16);
    var n := Nibble(bytes[8], 0);
    assert 8 <= n < 12;
    assert n == 8 || n == 9 || n == 10 || n == 11;
  }

  lemma UuidLayout(digest: string)
    requires |digest| == 32
    requires forall k :: 0 <= k < 32 ==> IsLowerHex(digest[k])
    ensures IsUuidText(FormatUuid(digest))
    ensures FormatUuid(digest)[14] == digest[12] && FormatUuid(digest)[19] == digest[16]
  {
    forall k | 0 <= k < 36
      ensures if IsHyphenPos(k) then FormatUuid(digest)[k] == '-' else IsLowerHex(FormatUuid(digest)[k])
    {
      FormatUuidAt(digest, k);
    }
    FormatUuidAt(digest, 14);
    FormatUuidAt(digest, 19);
  }

  /** The identifier is symmetric in the two users. */
  lemma GenerateConversationIdSymmetric(md5: Md5, a: string, b: string)
    ensures GenerateConversationId(md5, a, b) == GenerateConversationId(md5, b, a)
  {
    CanonicalOrderSymmetric(a, b);
  }

  /** The identifier without its hyphens is the hex rendering of the stamped digest. */
  lemma GenerateConversationIdDigest(md5: Md5, userId: string, recipientId: string)
    ensures RemoveHyphens(GenerateConversationId(md5, userId, recipientId))
         == HexString(StampedDigest(md5, userId, recipientId))
  {
    var bytes := StampedDigest(md5, userId, recipientId);
    HexStringIsLowerHex(bytes);
    FormatUuidRemoveHyphens(HexString(bytes));
  }

  // ---------------------------------------------------------------------------
  // hexToBytes (lines 50-56) and the `parseInt(…, 16)` it calls
  // ---------------------------------------------------------------------------

  /** A JavaScript number as `parseInt` can return it: an integer or `NaN`. */
  datatype Parsed = NaN | Int(value: int)

  /** The white space and line terminators that `parseInt` skips (the
      ECMAScript WhiteSpace and LineTerminator productions). */
  predicate IsJsSpace(c: char)
  {
    var n := c as int;
    n == 0x09 || n == 0x0A || n == 0x0B || n == 0x0C || n == 0x0D || n == 0x20 || n == 0xA0 ||
    n == 0x1680 || (0x2000 <= n <= 0x200A) || n == 0x2028 || n == 0x2029 || n == 0x202F ||
    n == 0x205F || n == 0x3000 || n == 0xFEFF
  }

  function TrimStart(s: string): (r: string)
    ensures r == [] || !IsJsSpace(r[0])
  {
    if s != [] && IsJsSpace(s[0]) then TrimStart(s[1..]) else s
  }

  /** The value of a hex digit in either case, or 16 for any other character. */
  function DigitValue(c: char): (v: nat)
    ensures v <= 16
  {
    if '0' <= c <= '9' then c as int - '0' as int
    else if 'a' <= c <= 'f' then c as int - 'a' as int + 10
    else if 'A' <= c <= 'F' then c as int - 'A' as int + 10
    else 16
  }

  /** The longest prefix of `s` made of hex digits. */
  function HexPrefix(s: string): (r: string)
    ensures |r| <= |s| && r == s[..|r|]
    ensures forall k :: 0 <= k < |r| ==> DigitValue(r[k]) < 16
    ensures |r| < |s| ==> DigitValue(s[|r|]) == 16
  {
    if s != [] && DigitValue(s[0]) < 16 then [s[0]] + HexPrefix(s[1..]) else []
  }

  /** The number that a string of hex digits denotes, most significant first. */
  function HexValue(ds: string): nat
    requires forall k :: 0 <= k < |ds| ==> DigitValue(ds[k]) < 16
  {
    if ds == [] then 0 else 16 * HexValue(ds[..|ds| - 1]) + DigitValue(ds[|ds| - 1])
  }

  /** `parseInt(s, 16)`: skip leading white space, take an optional sign, drop
      an optional `0x`/`0X`, then read the longest run of hex digits; no digit
      at all gives `NaN`. */
  function ParseInt16(s: string): Parsed
  {
    var t := TrimStart(s);
    var negative := t != [] && t[0] == '-';
    var u := if t != [] && (t[0] == '-' || t[0] == '+') then t[1..] else t;
    var v := if |u| >= 2 && u[0] == '0' && (u[1] == 'x' || u[1] == 'X') then u[2..] else u;
    var digits := HexPrefix(v);
    if digits == [] then NaN
    else if negative then Int(-(HexValue(digits) as int))
    else Int(HexValue(digits))
  }

  /** `s.substr(start, length)` for a start inside or at the end of `s`. */
  function Substr(s: string, start: nat, length: nat): (r: string)
    requires start <= |s|
    ensures |r| == if start + length <= |s| then length else |s| - start
  {
    if start + length <= |s| then s[start..start + length] else s[start..]
  }

  /** The loop of lines 52-54: one `parseInt` per two characters, the last
      chunk being a single character when the length is odd. */
  method HexToBytes(hex: string) returns (bytes: seq<Parsed>)
    ensures |bytes| == (|hex| + 1) / 2
    ensures forall i :: 0 <= i < |bytes| ==> bytes[i] == ParseInt16(Substr(hex, 2 * i, 2))
  {
    bytes := [];
    var c := 0;
    while c < |hex|
      invariant c % 2 == 0 && c <= |hex| + 1
      invariant |bytes| == c / 2
      invariant forall i :: 0 <= i < |bytes| ==> bytes[i] == ParseInt16(Substr(hex, 2 * i, 2))
    {
      bytes := bytes + [ParseInt16(Substr(hex, c, 2))];
      c := c + 2;
    }
  }

  /** Two lowercase digits as line 23 prints them parse back to their byte. */
  lemma ParseHexByte(b: bv8)
    ensures ParseInt16(HexByte(b)) == Int(b as int)
  {
    ParseTwoDigits(Nibble(b, 0), Nibble(b, 1));
    var n := b as int;
    assert 16 * (n / 16) + n % 16 == n;
  }

  lemma ParseTwoDigits(hi: nat, lo: nat)
    requires hi < 16 && lo < 16
    ensures ParseInt16([HexDigit(hi), HexDigit(lo)]) == Int(16 * hi + lo)
  {
    var c0, c1 := HexDigit(hi), HexDigit(lo);
    var s := [c0, c1];
    HexDigitValue(hi);
    HexDigitValue(lo);
    assert TrimStart(s) == s;
    assert s[1..] == [c1];
    assert HexPrefix([c1]) == [c1] by {
      assert [c1][1..] == [];
    }
    assert HexPrefix(s) == s;
    assert s[..1] == [c0] && [c0][..0] == [];
    assert HexValue([c0]) == hi;
    assert HexValue(s) == 16 * hi + lo;
  }

  lemma HexDigitValue(n: nat)
    requires n < 16
    ensures DigitValue(HexDigit(n)) == n
    ensures !IsJsSpace(HexDigit(n)) && HexDigit(n) != '-' && HexDigit(n) != '+'
    ensures HexDigit(n) != 'x' && HexDigit(n) != 'X'
  {
  }

  /** `hexToBytes` inverts the rendering of line 23: decoding the hex string of
      any byte sequence chunk by chunk gives back every byte, and there are as
      many chunks as bytes. */
  lemma HexToBytesInvertsHexString(bs: seq<bv8>)
    ensures (|HexString(bs)| + 1) / 2 == |bs|
    ensures forall i :: 0 <= i < |bs| ==> ParseInt16(Substr(HexString(bs), 2 * i, 2)) == Int(bs[i] as int)
  {
    forall i | 0 <= i < |bs|
      ensures ParseInt16(Substr(HexString(bs), 2 * i, 2)) == Int(bs[i] as int)
    {
      HexStringChunk(bs, i);
      ParseHexByte(bs[i]);
    }
  }

  /** The `i`-th two-character chunk of the rendering is the rendering of byte `i`. */
  lemma {:induction false} HexStringChunk(bs: seq<bv8>, i: nat)
    requires i < |bs|
    ensures Substr(HexString(bs), 2 * i, 2) == HexByte(bs[i])
    decreases i
  {
    HexStringSplit(bs, i);
    if i > 0 {
      HexStringChunk(bs[1..], i - 1);
      assert bs[1..][i - 1] == bs[i];
    }
  }

  /** The first chunk renders the first byte; every later chunk is a chunk
      of the rendering of the remaining bytes. */
  lemma HexStringSplit(bs: seq<bv8>, i: nat)
    requires i < |bs|
    ensures i == 0 ==> Substr(HexString(bs), 0, 2) == HexByte(bs[0])
    ensures i > 0 ==> Substr(HexString(bs), 2 * i, 2) == Substr(HexString(bs[1..]), 2 * i - 2, 2)
  {
    var head := HexByte(bs[0]);
    var tail := HexString(bs[1..]);
    assert HexString(bs) == head + tail;
    PairChunk(head, tail, i);
  }

  /** Chunk `i` of a two-character head followed by a tail. */
  lemma PairChunk(head: string, tail: string, i: nat)
    requires |head| == 2 && 2 * i + 2 <= |head| + |tail|
    ensures i == 0 ==> (head + tail)[0..2] == head
    ensures i > 0 ==> (head + tail)[2 * i..2 * i + 2] == tail[2 * i - 2..2 * i]
  {
  }
}
