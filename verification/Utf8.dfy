/**
 UTF-8 as RFC 3629 defines it: the encoding of section 3, and independently of
 it the byte sequences that the grammar of section 4 admits. It tells which
 tokens can be hashed, and that hashing their bytes confuses no two of them.
 */
module Utf8 {
  import opened Tokens

  type Byte = b: int | 0 <= b < 256

  // ---------- The grammar ----------

  ghost predicate Tail(b: Byte) { 0x80 <= b <= 0xBF }

  /** The rules UTF8-1 to UTF8-4. */
  ghost predicate IsChar(bs: seq<Byte>) {
    || (|bs| == 1 && bs[0] <= 0x7F)
    || (|bs| == 2 && 0xC2 <= bs[0] <= 0xDF && Tail(bs[1]))
    || (|bs| == 3 && Tail(bs[2]) && ((bs[0] == 0xE0 && 0xA0 <= bs[1] <= 0xBF)
                                     || (0xE1 <= bs[0] <= 0xEC && Tail(bs[1]))
                                     || (bs[0] == 0xED && 0x80 <= bs[1] <= 0x9F)
                                     || (0xEE <= bs[0] <= 0xEF && Tail(bs[1]))))
    || (|bs| == 4 && Tail(bs[2]) && Tail(bs[3]) && ((bs[0] == 0xF0 && 0x90 <= bs[1] <= 0xBF)
                                                    || (0xF1 <= bs[0] <= 0xF3 && Tail(bs[1]))
                                                    || (bs[0] == 0xF4 && 0x80 <= bs[1] <= 0x8F)))
  }

  /** What a byte carries above the mark that it begins with. */
  ghost function Payload(b: Byte, mark: int): int { b - mark }

  /** The number in the payload bits. */
  ghost function CharOf(bs: seq<Byte>): int
    requires IsChar(bs)
  {
    if |bs| == 1 then bs[0]
    else if |bs| == 2 then Payload(bs[0], 0xC0) * 0x40 + Payload(bs[1], 0x80)
    else if |bs| == 3 then Payload(bs[0], 0xE0) * 0x1000 + Payload(bs[1], 0x80) * 0x40 + Payload(bs[2], 0x80)
    else Payload(bs[0], 0xF0) * 0x40000 + Payload(bs[1], 0x80) * 0x1000 + Payload(bs[2], 0x80) * 0x40 + Payload(bs[3], 0x80)
  }

  /** The bytes spell the token, one character of the grammar after the other. */
  ghost predicate Spells(bs: seq<Byte>, token: Token)
    decreases |token|
  {
    if token == [] then bs == []
    else exists k :: SpellsFirst(bs, k, token[0]) && Spells(bs[k..], token[1..])
  }

  ghost predicate SpellsFirst(bs: seq<Byte>, k: int, c: CodePoint) {
    0 <= k <= |bs| && IsChar(bs[..k]) && CharOf(bs[..k]) == c
  }

  // ---------- The encoding ----------

  /** The number above the last six bits, and those six bits. */
  function Split(n: nat): (r: (nat, nat))
    ensures n == r.0 * 0x40 + r.1 && r.1 < 0x40
  {
    (n / 0x40, n % 0x40)
  }

  lemma SplitIsUnique(q: nat, r: nat)
    requires r < 0x40
    ensures Split(q * 0x40 + r) == (q, r)
  {
  }

  function EncodeChar(c: CodePoint): seq<Byte> {
    var (q, z) := Split(c);
    var (p, y) := Split(q);
    var (w, x) := Split(p);
    if c < 0x80 then [c]
    else if c < 0x800 then [0xC0 + q, 0x80 + z]
    else if c < 0x10000 then [0xE0 + p, 0x80 + y, 0x80 + z]
    else [0xF0 + w, 0x80 + x, 0x80 + y, 0x80 + z]
  }

  function Encode(token: Token): seq<Byte> {
    if token == [] then [] else EncodeChar(token[0]) + Encode(token[1..])
  }

  lemma TwoBytes(a: Byte, b: Byte)
    requires IsChar([a, b])
    ensures CharOf([a, b]) == Payload(a, 0xC0) * 0x40 + Payload(b, 0x80)
    ensures 0x80 <= CharOf([a, b]) < 0x800 && EncodeChar(CharOf([a, b])) == [a, b]
  {
    SplitIsUnique(Payload(a, 0xC0), Payload(b, 0x80));
  }

  lemma ThreeBytes(a: Byte, b: Byte, c: Byte)
    requires IsChar([a, b, c])
    ensures 0x800 <= CharOf([a, b, c]) < 0x10000 && !(0xD800 <= CharOf([a, b, c]) <= 0xDFFF)
    ensures EncodeChar(CharOf([a, b, c])) == [a, b, c]
  {
    var p := Payload(a, 0xE0);
    var q := p * 0x40 + Payload(b, 0x80);
    SplitIsUnique(q, Payload(c, 0x80));
    SplitIsUnique(p, Payload(b, 0x80));
  }

  lemma FourBytes(a: Byte, b: Byte, c: Byte, d: Byte)
    requires IsChar([a, b, c, d])
    ensures 0x10000 <= CharOf([a, b, c, d]) <= 0x10FFFF
    ensures EncodeChar(CharOf([a, b, c, d])) == [a, b, c, d]
  {
    var w := Payload(a, 0xF0);
    var p := w * 0x40 + Payload(b, 0x80);
    var q := p * 0x40 + Payload(c, 0x80);
    assert CharOf([a, b, c, d]) == q * 0x40 + Payload(d, 0x80);
    EncodeFour(w, Payload(b, 0x80), Payload(c, 0x80), Payload(d, 0x80));
  }

  lemma EncodeFour(w: nat, x: nat, y: nat, z: nat)
    requires 0x10000 <= ((w * 0x40 + x) * 0x40 + y) * 0x40 + z <= 0x10FFFF && x < 0x40 && y < 0x40 && z < 0x40
    ensures EncodeChar(((w * 0x40 + x) * 0x40 + y) * 0x40 + z) == [0xF0 + w, 0x80 + x, 0x80 + y, 0x80 + z]
  {
    SplitIsUnique((w * 0x40 + x) * 0x40 + y, z);
    SplitIsUnique(w * 0x40 + x, y);
    SplitIsUnique(w, x);
  }

  /** The grammar has no surrogates, and one spelling for everything else. */
  lemma CharsHaveOneSpelling(bs: seq<Byte>)
    requires IsChar(bs)
    ensures 0 <= CharOf(bs) <= 0x10FFFF && !(0xD800 <= CharOf(bs) <= 0xDFFF)
    ensures EncodeChar(CharOf(bs)) == bs
  {
    if |bs| == 2 {
      assert bs == [bs[0], bs[1]];
      TwoBytes(bs[0], bs[1]);
    } else if |bs| == 3 {
      assert bs == [bs[0], bs[1], bs[2]];
      ThreeBytes(bs[0], bs[1], bs[2]);
    } else if |bs| == 4 {
      assert bs == [bs[0], bs[1], bs[2], bs[3]];
      FourBytes(bs[0], bs[1], bs[2], bs[3]);
    }
  }

  lemma EncodedCharIsSpelling(c: CodePoint)
    requires !(0xD800 <= c <= 0xDFFF)
    ensures IsChar(EncodeChar(c)) && CharOf(EncodeChar(c)) == c
  {
  }

  lemma EncodableConcat(s: Token, t: Token)
    ensures Encodable(s + t) <==> Encodable(s) && Encodable(t)
  {
    assert forall c | c in s :: c in s + t;
    assert forall c | c in t :: c in s + t;
  }

  lemma EncodableFirst(token: Token)
    requires token != []
    ensures Encodable(token) <==> !(0xD800 <= token[0] <= 0xDFFF) && Encodable(token[1..])
  {
    assert token == [token[0]] + token[1..];
    EncodableConcat([token[0]], token[1..]);
    assert token[0] in [token[0]];
  }

  lemma {:induction false} EncodingSpells(token: Token)
    requires Encodable(token)
    ensures Spells(Encode(token), token)
  {
    if token != [] {
      var first, bs := EncodeChar(token[0]), Encode(token);
      EncodableFirst(token);
      EncodedCharIsSpelling(token[0]);
      EncodingSpells(token[1..]);
      assert bs[..|first|] == first && bs[|first|..] == Encode(token[1..]);
      assert SpellsFirst(bs, |first|, token[0]);
    }
  }

  /** Whatever is spelled is encodable, and its spelling is its encoding. */
  lemma {:induction false} SpellingIsEncoding(bs: seq<Byte>, token: Token)
    requires Spells(bs, token)
    ensures Encodable(token) && bs == Encode(token)
    decreases |token|
  {
    if token != [] {
      var k :| SpellsFirst(bs, k, token[0]) && Spells(bs[k..], token[1..]);
      EncodableFirst(token);
      CharsHaveOneSpelling(bs[..k]);
      SpellingIsEncoding(bs[k..], token[1..]);
      assert bs == bs[..k] + bs[k..];
    }
  }

  /** A token can be hashed exactly when some bytes spell it. */
  lemma EncodableIffSpelled(token: Token)
    ensures Encodable(token) <==> exists bs: seq<Byte> :: Spells(bs, token)
    ensures GetTokenHash(token).Some? <==> exists bs: seq<Byte> :: Spells(bs, token)
  {
    if Encodable(token) {
      EncodingSpells(token);
      var bs := Encode(token);
      assert Spells(bs, token);
    } else {
      forall bs: seq<Byte> ensures !Spells(bs, token) {
        if Spells(bs, token) { SpellingIsEncoding(bs, token); }
      }
    }
  }

  /** The length of a character is told by its first byte. */
  lemma PrefixFree(bs: seq<Byte>, j: int, k: int, c: CodePoint, d: CodePoint)
    requires SpellsFirst(bs, j, c) && SpellsFirst(bs, k, d)
    ensures j == k && c == d
  {
    assert bs[..j][0] == bs[0] && bs[..k][0] == bs[0];
  }

  /** The same bytes never spell two tokens, so a hash of the bytes is as good as a hash of the token. */
  lemma {:induction false} SpellingDeterminesToken(bs: seq<Byte>, s: Token, t: Token)
    requires Spells(bs, s) && Spells(bs, t)
    ensures s == t
    decreases |s|
  {
    if s != [] && t != [] {
      var j :| SpellsFirst(bs, j, s[0]) && Spells(bs[j..], s[1..]);
      var k :| SpellsFirst(bs, k, t[0]) && Spells(bs[k..], t[1..]);
      PrefixFree(bs, j, k, s[0], t[0]);
      SpellingDeterminesToken(bs[j..], s[1..], t[1..]);
      assert s == [s[0]] + s[1..] && t == [t[0]] + t[1..];
    }
  }

  /** Distinct tokens that can be hashed have distinct encodings. */
  lemma EncodingsAreDistinct(s: Token, t: Token)
    requires Encodable(s) && Encodable(t)
    ensures Encode(s) == Encode(t) <==> s == t
  {
    EncodingSpells(s);
    EncodingSpells(t);
    if Encode(s) == Encode(t) { SpellingDeterminesToken(Encode(s), s, t); }
  }
}
