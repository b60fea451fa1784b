/** Token layout: a prefix, 37 random characters, and their checksum in six base-62 digits. */
module Crypto {
  import opened Wrappers
  import opened Tokens
  import Utf8

  const DIGITS := "0123456789"
  const UPPER := "ABCDEFGHIJKLMNOPQRSTUVWXYZ"
  const LOWER := "abcdefghijklmnopqrstuvwxyz"
  const CHARACTERS := DIGITS + UPPER + LOWER

  const BASE: nat := 62

  /** 62 to the power of `k`. */
  ghost function Power(k: nat): nat {
    if k == 0 then 1 else BASE * Power(k - 1)
  }

  function Index(c: char): int {
    if '0' <= c <= '9' then c as int - '0' as int
    else if 'A' <= c <= 'Z' then c as int - 'A' as int + 10
    else if 'a' <= c <= 'z' then c as int - 'a' as int + 36
    else -1
  }

  /** The alphabet lists the digits in order of value. */
  lemma AlphabetInOrder(i: nat)
    requires i < BASE
    ensures |CHARACTERS| == BASE && Index(CHARACTERS[i]) == i
  {
    if i < 10 {
      DigitAt(i);
      assert CHARACTERS[i] == DIGITS[i];
    } else if i < 36 {
      UpperAt(i - 10);
      assert CHARACTERS[i] == UPPER[i - 10];
    } else {
      LowerAt(i - 36);
      assert CHARACTERS[i] == LOWER[i - 36];
    }
  }

  lemma DigitAt(i: nat)
    requires i < |DIGITS|
    ensures DIGITS[i] as int == '0' as int + i
  {
  }

  lemma UpperAt(i: nat)
    requires i < |UPPER|
    ensures UPPER[i] as int == 'A' as int + i
  {
  }

  lemma LowerAt(i: nat)
    requires i < |LOWER|
    ensures LOWER[i] as int == 'a' as int + i
  {
  }

  // ---------- Encoding ----------

  function Digits(n: nat): string {
    if n == 0 then "" else Digits(n / BASE) + [CHARACTERS[n % BASE]]
  }

  function Zeros(k: nat): string { seq(k, _ => '0') }

  /** Python's zfill on a string without a sign. */
  function ZFill(s: string, width: nat): string {
    if |s| < width then Zeros(width - |s|) + s else s
  }

  function Encode(n: nat): string { ZFill(Digits(n), 6) }

  method Crc32ToBase62(crc: nat) returns (encoded: string)
    ensures encoded == Encode(crc)
  {
    var number: nat := crc;
    encoded := "";
    while number != 0
      invariant Digits(crc) == Digits(number) + encoded
    {
      var remainder := number % BASE;
      number := number / BASE;
      encoded := [CHARACTERS[remainder]] + encoded;
    }
    encoded := ZFill(encoded, 6);
  }

  // ---------- Decoding ----------

  function Decode(s: string): int {
    if s == "" then 0 else Decode(s[..|s|-1]) * BASE + Index(s[|s|-1])
  }

  lemma {:induction false} DecodeDigits(n: nat)
    ensures Decode(Digits(n)) == n
  {
    if n != 0 {
      DecodeDigits(n / BASE);
      AlphabetInOrder(n % BASE);
      assert Digits(n)[..|Digits(n)|-1] == Digits(n / BASE);
    }
  }

  lemma {:induction false} DecodePadded(k: nat, s: string)
    ensures Decode(Zeros(k) + s) == Decode(s)
    decreases k + |s|
  {
    if s != "" {
      assert (Zeros(k) + s)[..k + |s| - 1] == Zeros(k) + s[..|s|-1];
      DecodePadded(k, s[..|s|-1]);
    } else if k != 0 {
      assert (Zeros(k) + s)[..k - 1] == Zeros(k - 1) + "";
      DecodePadded(k - 1, "");
    }
  }

  /** Decoding the padded encoding gives the number back, however large. */
  lemma DecodeEncode(n: nat)
    ensures Decode(Encode(n)) == n
  {
    DecodeDigits(n);
    if |Digits(n)| < 6 { DecodePadded(6 - |Digits(n)|, Digits(n)); }
  }

  // ---------- Width ----------

  lemma {:induction false} DigitsWidth(n: nat, k: nat)
    ensures |Digits(n)| <= k <==> n < Power(k)
  {
    if n != 0 && k != 0 {
      DigitsWidth(n / BASE, k - 1);
      DividedBelow(n, Power(k - 1));
      assert |Digits(n)| == |Digits(n / BASE)| + 1;
    } else if n == 0 {
      PowerPositive(k);
    }
  }

  lemma {:induction false} PowerPositive(k: nat)
    ensures 0 < Power(k)
  {
    if k != 0 { PowerPositive(k - 1); }
  }

  lemma DividedBelow(n: nat, p: nat)
    ensures n / BASE < p <==> n < BASE * p
  {
  }

  /** The encoding has six characters exactly for the numbers below 62^6. */
  lemma SixCharacters(n: nat)
    ensures |Encode(n)| == 6 <==> n < Power(6)
  {
    DigitsWidth(n, 6);
  }

  /** Every 32-bit checksum fits, and five characters would not be enough. */
  lemma ChecksumsFit(n: nat)
    requires n < 0x1_0000_0000
    ensures |Encode(n)| == 6 && Power(5) < 0x1_0000_0000
  {
    SixCharacters(n);
    assert Power(3) == 238328;
    assert Power(5) == 62 * 62 * Power(3) && Power(6) == 62 * Power(5);
  }

  ghost predicate InAlphabet(s: string) {
    forall c | c in s :: 0 <= Index(c)
  }

  lemma {:induction false} DigitsInAlphabet(n: nat)
    ensures InAlphabet(Digits(n))
  {
    if n != 0 {
      DigitsInAlphabet(n / BASE);
      AlphabetInOrder(n % BASE);
    }
  }

  // ---------- Order ----------

  /** Python's comparison of strings of the same length. */
  predicate Before(s: string, t: string)
    requires |s| == |t|
  {
    s != "" && (s[0] < t[0] || (s[0] == t[0] && Before(s[1..], t[1..])))
  }

  lemma {:induction false} DecodeHead(s: string)
    requires s != ""
    ensures Decode(s) == Index(s[0]) * Power(|s| - 1) + Decode(s[1..])
  {
    if |s| == 1 {
      assert s[..0] == "" && s[1..] == "";
    } else {
      var front := s[..|s|-1];
      DecodeHead(front);
      assert s[1..][..|s|-2] == front[1..];
      Distribute(Index(s[0]), Power(|s| - 2), Decode(front[1..]));
    }
  }

  lemma Distribute(a: int, p: int, d: int)
    ensures (a * p + d) * BASE == a * (BASE * p) + d * BASE
  {
  }

  lemma {:induction false} DecodeBound(s: string)
    requires InAlphabet(s)
    ensures 0 <= Decode(s) < Power(|s|)
  {
    if s != "" {
      DecodeBound(s[..|s|-1]);
      assert s[|s|-1] in s;
    }
  }

  /** The order of values is the order of ASCII. */
  lemma IndexOrder(c: char, d: char)
    requires 0 <= Index(c) && 0 <= Index(d)
    ensures c < d <==> Index(c) < Index(d)
    ensures c == d <==> Index(c) == Index(d)
  {
  }

  /** A smaller leading digit decides, whatever follows. */
  lemma LeadingDigit(a: nat, b: nat, p: nat, x: nat, y: nat)
    requires a < b && x < p && y < p
    ensures a * p + x < b * p + y
  {
    assert (a + 1) * p <= b * p by { Monotone(a + 1, b, p); }
    assert (a + 1) * p == a * p + p;
  }

  lemma Monotone(a: nat, b: nat, p: nat)
    requires a <= b
    ensures a * p <= b * p
  {
    assert b * p == a * p + (b - a) * p;
  }

  lemma {:induction false} DecodeOrder(s: string, t: string)
    requires |s| == |t| && InAlphabet(s) && InAlphabet(t)
    ensures Before(s, t) <==> Decode(s) < Decode(t)
    decreases |s|
  {
    if s != "" {
      DecodeHead(s);
      DecodeHead(t);
      DecodeBound(s[1..]);
      DecodeBound(t[1..]);
      var a, b, p := Index(s[0]), Index(t[0]), Power(|s| - 1);
      IndexOrder(s[0], t[0]);
      if a < b {
        LeadingDigit(a, b, p, Decode(s[1..]), Decode(t[1..]));
      } else if b < a {
        LeadingDigit(b, a, p, Decode(t[1..]), Decode(s[1..]));
      } else {
        DecodeOrder(s[1..], t[1..]);
      }
    }
  }

  /** On checksums the encoding preserves order, and so loses nothing. */
  lemma EncodePreservesOrder(m: nat, n: nat)
    requires m < 0x1_0000_0000 && n < 0x1_0000_0000
    ensures |Encode(m)| == |Encode(n)| && (Before(Encode(m), Encode(n)) <==> m < n)
    ensures Encode(m) == Encode(n) <==> m == n
  {
    ChecksumsFit(m);
    ChecksumsFit(n);
    DigitsInAlphabet(m);
    DigitsInAlphabet(n);
    DecodeEncode(m);
    DecodeEncode(n);
    DecodeOrder(Encode(m), Encode(n));
  }

  // ---------- Tokens ----------

  /** CRC-32 of the random part, known only to be a 32-bit number. */
  type Checksum = f: string -> nat | forall s :: f(s) < 0x1_0000_0000 witness (_ => 0)

  const RANDOM_LENGTH: nat := 37

  /** `random` is the freshly drawn random part. */
  function GenerateToken(crc: Checksum, prefix: string, random: string): string {
    prefix + random + Encode(crc(random))
  }

  /** A token is its prefix plus 43 characters, and splits back into its parts and a checksum that can be verified. */
  lemma TokenSplits(crc: Checksum, prefix: string, random: string)
    requires |random| == RANDOM_LENGTH
    ensures var token := GenerateToken(crc, prefix, random); var p := |prefix|;
      && |token| == p + 43 && token[..p] == prefix && token[p..p + 37] == random
      && Decode(token[p + 37..]) == crc(random)
  {
    ChecksumsFit(crc(random));
    DecodeEncode(crc(random));
    var token := GenerateToken(crc, prefix, random);
    assert token[|prefix| + 37..] == Encode(crc(random));
  }

  /** So two tokens are equal only if both their prefixes and their random parts are: kinds of token never mix. */
  lemma TokensDetermineParts(crc: Checksum, p: string, r: string, p': string, r': string)
    requires |r| == RANDOM_LENGTH == |r'|
    ensures GenerateToken(crc, p, r) == GenerateToken(crc, p', r') <==> p == p' && r == r'
  {
    TokenSplits(crc, p, r);
    TokenSplits(crc, p', r');
  }

  /** Every generated token can be hashed, and its hash tells its prefix and its random part. */
  lemma GeneratedTokensHaveHashes(crc: Checksum, prefix: string, random: string)
    ensures var token := CodePoints(GenerateToken(crc, prefix, random)); GetTokenHash(token) == Some(Hash(token))
  {
  }

  lemma HashesDetermineParts(crc: Checksum, p: string, r: string, p': string, r': string)
    requires |r| == RANDOM_LENGTH == |r'|
    ensures GetTokenHash(CodePoints(GenerateToken(crc, p, r))) == GetTokenHash(CodePoints(GenerateToken(crc, p', r')))
      <==> p == p' && r == r'
  {
    var s, t := GenerateToken(crc, p, r), GenerateToken(crc, p', r');
    GeneratedTokensHaveHashes(crc, p, r);
    GeneratedTokensHaveHashes(crc, p', r');
    TokensDetermineParts(crc, p, r, p', r');
    if CodePoints(s) == CodePoints(t) {
      forall i | 0 <= i < |s| ensures s[i] == t[i] { assert CodePoints(s)[i] == CodePoints(t)[i]; }
      assert s == t;
    }
  }

  /** A configured prefix may be any string: its tokens can be hashed if and only if it holds no surrogate. */
  lemma PrefixDecides(crc: Checksum, prefix: Token, random: string)
    ensures Encodable(prefix + CodePoints(GenerateToken(crc, "", random))) <==> Encodable(prefix)
  {
    Utf8.EncodableConcat(prefix, CodePoints(GenerateToken(crc, "", random)));
    GeneratedTokensHaveHashes(crc, "", random);
  }
}
