/** The 80-byte block header that a share's hex data stands for, the nonce read from it for
    duplicate detection, and the comparison of its hash with the target. */
module Headers {
  import opened Common
  import opened HexBytes

  // ---------- numbers from bytes ----------

  function Pow256(n: nat): (p: nat)
    ensures p > 0
  {
    if n == 0 then 1 else 256 * Pow256(n - 1)
  }

  /** The natural number with these little-endian digits in base 256. */
  function Little(b: seq<Byte>): (v: nat)
    ensures v < Pow256(|b|)
  {
    if b == [] then 0 else b[0] + 256 * Little(b[1..])
  }

  function Big(b: seq<Byte>): (v: nat)
    ensures v < Pow256(|b|)
  {
    Little(Backwards(b))
  }

  lemma {:induction false} LittleIsInjective(b: seq<Byte>, c: seq<Byte>)
    requires |b| == |c|
    ensures Little(b) == Little(c) ==> b == c
  {
    if b != [] && Little(b) == Little(c) {
      assert b[0] == Little(b) % 256 && c[0] == Little(c) % 256;
      LittleIsInjective(b[1..], c[1..]);
      assert b == [b[0]] + b[1..] && c == [c[0]] + c[1..];
    }
  }

  /** The highest byte that differs decides. */
  lemma {:induction false} HighestDifferenceDecides(b: seq<Byte>, c: seq<Byte>, k: nat)
    requires |b| == |c| && k < |b|
    requires b[k] < c[k] && b[k + 1..] == c[k + 1..]
    ensures Little(b) < Little(c)
  {
    if k > 0 {
      HighestDifferenceDecides(b[1..], c[1..], k - 1);
    }
  }

  /** The sign of the difference of two hashes read as little-endian numbers. */
  method CompareInvertedHashes(hash1: array<Byte>, hash2: array<Byte>) returns (sign: int)
    requires hash1.Length == hash2.Length == 32
    ensures sign == -1 || sign == 0 || sign == 1
    ensures sign < 0 <==> Little(hash1[..]) < Little(hash2[..])
    ensures sign > 0 <==> Little(hash1[..]) > Little(hash2[..])
  {
    for i := 0 to 32
      invariant hash1[32 - i..] == hash2[32 - i..]
    {
      if hash1[32 - i - 1] < hash2[32 - i - 1] {
        HighestDifferenceDecides(hash1[..], hash2[..], 31 - i);
        return -1;
      } else if hash1[32 - i - 1] > hash2[32 - i - 1] {
        HighestDifferenceDecides(hash2[..], hash1[..], 31 - i);
        return 1;
      }
    }
    assert hash1[..] == hash2[..];
    return 0;
  }

  // ---------- the easy target ----------

  /** Fifty-six digits f and then eight digits 0. */
  const EASY_TARGET: string := seq(56, _ => 'f') + seq(8, _ => '0')

  lemma {:induction false} AllOnes(b: seq<Byte>)
    requires forall k :: 0 <= k < |b| ==> b[k] == 255
    ensures Little(b) == Pow256(|b|) - 1
  {
    if b != [] {
      AllOnes(b[1..]);
    }
  }

  lemma {:induction false} LittleOfTwoParts(b: seq<Byte>, c: seq<Byte>)
    ensures Little(b + c) == Little(b) + Pow256(|b|) * Little(c)
  {
    if b == [] {
      assert b + c == c;
    } else {
      LittleOfTwoParts(b[1..], c);
      assert (b + c)[1..] == b[1..] + c;
      TimesAssociates(256, Pow256(|b| - 1), Little(c));
    }
  }

  lemma TimesAssociates(x: nat, y: nat, z: nat)
    ensures x * y * z == x * (y * z)
  {
  }

  lemma ZeroHighPart(b: seq<Byte>, n: nat)
    requires n <= |b|
    ensures Little(b) < Pow256(n) <==> (forall k :: n <= k < |b| ==> b[k] == 0)
  {
    var low, high := b[..n], b[n..];
    assert b == low + high;
    LittleOfTwoParts(low, high);
    ZeroValue(high);
    ZeroSuffix(b, n);
    if Little(high) > 0 {
      AtLeastOnce(Pow256(n), Little(high));
    }
  }

  lemma ZeroSuffix(b: seq<Byte>, n: nat)
    requires n <= |b|
    ensures (forall k :: n <= k < |b| ==> b[k] == 0) <==> (forall k :: 0 <= k < |b[n..]| ==> b[n..][k] == 0)
  {
    assert forall k :: n <= k < |b| ==> b[k] == b[n..][k - n];
  }

  lemma AtLeastOnce(x: nat, y: nat)
    requires y > 0
    ensures x * y >= x
  {
  }

  lemma {:induction false} ZeroValue(b: seq<Byte>)
    ensures Little(b) == 0 <==> (forall k :: 0 <= k < |b| ==> b[k] == 0)
  {
    if b != [] {
      ZeroValue(b[1..]);
      assert (forall k :: 0 <= k < |b| ==> b[k] == 0)
        <==> b[0] == 0 && (forall k :: 0 <= k < |b[1..]| ==> b[1..][k] == 0) by {
        assert forall k :: 0 <= k < |b[1..]| ==> b[1..][k] == b[k + 1];
      }
    }
  }

  lemma EasyTargetBytes()
    ensures |EASY_TARGET| == 64 && Parses(Pairs(EASY_TARGET))
    ensures forall k :: 0 <= k < 32 ==> Decoded(EASY_TARGET)[k] == if k < 28 then 255 else 0
  {
    forall k | 0 <= k < 32
      ensures Pairs(EASY_TARGET)[k] == if k < 28 then ('f', 'f') else ('0', '0')
    {
      assert Pairs(EASY_TARGET)[k] == PairAt(EASY_TARGET, k);
    }
  }

  lemma OnesThenZeros(t: seq<Byte>, n: nat)
    requires n <= |t|
    requires forall k :: 0 <= k < |t| ==> t[k] == if k < n then 255 else 0
    ensures Little(t) == Pow256(n) - 1
  {
    var low, high := t[..n], t[n..];
    assert t == low + high;
    LittleOfTwoParts(low, high);
    AllOnes(low);
    ZeroValue(high);
    assert Pow256(n) * 0 == 0;
  }

  /** The easy target is 2^224 - 1, so a hash is at most it exactly when its last four bytes
      are zero. */
  lemma EasyTargetMeaning(hash: seq<Byte>)
    requires |hash| == 32
    ensures |EASY_TARGET| == 64
    ensures Little(Decoded(EASY_TARGET)) == Pow256(28) - 1
    ensures Little(hash) <= Little(Decoded(EASY_TARGET))
            <==> (forall k :: 28 <= k < 32 ==> hash[k] == 0)
  {
    EasyTargetBytes();
    OnesThenZeros(Decoded(EASY_TARGET), 28);
    ZeroHighPart(hash, 28);
  }

  // ---------- the header ----------

  const HEADER_CHARS := 160

  /** The bytes the worker thread hashes: the first 160 characters with each eight-character
      word's byte pairs reversed, decoded; none if some pair does not parse. */
  function Header(data: string): Option<seq<Byte>>
    requires |data| >= HEADER_CHARS
  {
    Decode(WordsSwapped(Pairs(data[..HEADER_CHARS])))
  }

  function HeaderBytes(data: string): (b: seq<Byte>)
    requires |data| >= HEADER_CHARS
    ensures |b| == 80
  {
    WordsSwapped(Decoded(data[..HEADER_CHARS]))
  }

  lemma HeaderDecodes(data: string)
    requires |data| >= HEADER_CHARS
    ensures Header(data) == if Parses(Pairs(data[..HEADER_CHARS])) then Some(HeaderBytes(data)) else None
  {
    SwapThenDecode(Pairs(data[..HEADER_CHARS]));
  }

  /** Word g of the header depends on characters 8g to 8g + 8 of the data alone. */
  lemma HeaderWord(data: string, g: nat)
    requires |data| >= HEADER_CHARS && g < 20
    ensures Word(HeaderBytes(data), g) == Backwards(Decoded(data[8 * g..8 * g + 8]))
  {
    SwappedBytesWord(data[..HEADER_CHARS], g);
    SliceOfSlice(data, 0, HEADER_CHARS, 8 * g, 8 * g + 8);
  }

  lemma SliceOfSlice<T>(s: seq<T>, i: nat, j: nat, k: nat, l: nat)
    requires i <= j <= |s| && k <= l <= j - i
    ensures s[i..j][k..l] == s[i + k..i + l]
  {
    var t, u := s[i..j][k..l], s[i + k..i + l];
    assert forall x :: 0 <= x < |u| ==> t[x] == s[i..j][k + x] == s[i + k + x];
  }

  lemma WordOfSlice<T>(b: seq<T>, g: nat, n: nat, w: nat)
    requires 4 * (g + n) <= |b| && w < n
    ensures Word(b[4 * g..4 * (g + n)], w) == Word(b, g + w)
  {
    SliceOfSlice(b, 4 * g, 4 * (g + n), 4 * w, 4 * w + 4);
  }

  lemma HeaderFieldWord(data: string, g: nat, n: nat, w: nat)
    requires |data| >= HEADER_CHARS && g + n <= 20 && w < n
    ensures Word(HeaderBytes(data)[4 * g..4 * (g + n)], w)
            == Backwards(Decoded(data[8 * g..8 * (g + n)][8 * w..8 * w + 8]))
  {
    WordOfSlice(HeaderBytes(data), g, n, w);
    SliceOfSlice(data, 8 * g, 8 * (g + n), 8 * w, 8 * w + 8);
    HeaderWord(data, g + w);
  }

  /** Data that agree on n whole words give headers that agree there. */
  lemma HeadersAgree(data: string, item: string, g: nat, n: nat)
    requires |data| >= HEADER_CHARS && |item| >= HEADER_CHARS && g + n <= 20
    requires data[8 * g..8 * (g + n)] == item[8 * g..8 * (g + n)]
    ensures HeaderBytes(data)[4 * g..4 * (g + n)] == HeaderBytes(item)[4 * g..4 * (g + n)]
  {
    var b, c := HeaderBytes(data)[4 * g..4 * (g + n)], HeaderBytes(item)[4 * g..4 * (g + n)];
    forall w | 0 <= w < n
      ensures Word(b, w) == Word(c, w)
    {
      HeaderFieldWord(data, g, n, w);
      HeaderFieldWord(item, g, n, w);
    }
    WordsDetermine(b, c, n);
  }

  lemma PreviousHashWord(data: string, blockHash: string, g: nat)
    requires |data| >= HEADER_CHARS && |blockHash| == 64 && g < 8
    requires data[8..72] == WordsInReverse(blockHash)
    ensures Word(HeaderBytes(data)[4..36], g)
            == Word(WordsSwapped(Decoded(WordsInReverse(blockHash))), g)
  {
    HeaderFieldWord(data, 1, 8, g);
    SwappedBytesWord(WordsInReverse(blockHash), g);
  }

  /** A share whose previous-hash field equals the word-reversed block hash hashes, in bytes 4
      to 36, the block hash fully backwards. */
  lemma PreviousHashBytes(data: string, blockHash: string)
    requires |data| >= HEADER_CHARS && |blockHash| == 64
    requires data[8..72] == WordsInReverse(blockHash)
    ensures HeaderBytes(data)[4..36] == Backwards(Decoded(blockHash))
  {
    forall g | 0 <= g < 8
      ensures Word(HeaderBytes(data)[4..36], g)
              == Word(WordsSwapped(Decoded(WordsInReverse(blockHash))), g)
    {
      PreviousHashWord(data, blockHash, g);
    }
    WordsDetermine(HeaderBytes(data)[4..36], WordsSwapped(Decoded(WordsInReverse(blockHash))), 8);
    WordsThenBytesReversed(blockHash, 8);
  }

  // ---------- the nonce used to detect duplicates ----------

  const TWO_64 := 0x1_0000_0000_0000_0000

  predicate AllHex(s: string) {
    forall k :: 0 <= k < |s| ==> IsHex(s[k])
  }

  function LeadingHex(s: string, acc: nat): nat {
    if s == "" || !IsHex(s[0]) then acc else LeadingHex(s[1..], 16 * acc + Digit(s[0]))
  }

  function SkipSpaces(s: string): string {
    if s != "" && IsSpace(s[0]) then SkipSpaces(s[1..]) else s
  }

  /** `g_ascii_strtoull (s, NULL, 16)`: spaces, a sign and a 0x prefix may come first, reading
      stops at the first other character, and a minus sign negates modulo 2^64. */
  function Strtoull(s: string): nat {
    var t := SkipSpaces(s);
    var signed := t != "" && (t[0] == '+' || t[0] == '-');
    var u := if signed then t[1..] else t;
    var v := if |u| >= 2 && u[0] == '0' && (u[1] == 'x' || u[1] == 'X') then u[2..] else u;
    var n := LeadingHex(v, 0);
    if signed && t[0] == '-' then (TWO_64 - n % TWO_64) % TWO_64 else n
  }

  /** GUINT32_SWAP_LE_BE. */
  function SwapEnds(n: nat): nat {
    n % 0x100 * 0x100_0000 + n / 0x100 % 0x100 * 0x1_0000
    + n / 0x100 / 0x100 % 0x100 * 0x100 + n / 0x100 / 0x100 / 0x100 % 0x100
  }

  function Nonce(data: string): nat
    requires |data| >= HEADER_CHARS
  {
    SwapEnds(Strtoull(data[152..160]) % TWO_32)
  }

  lemma PairRead(s: string, acc: nat)
    requires |s| >= 2 && IsHex(s[0]) && IsHex(s[1])
    ensures LeadingHex(s, acc) == LeadingHex(s[2..], 256 * acc + ParsePair(PairAt(s, 0)).value)
  {
    assert s[1..][1..] == s[2..];
  }

  function Quad(a: int, b: int, c: int, d: int): int {
    a + 256 * (b + 256 * (c + 256 * d))
  }

  /** Reading on at a pair that parses: its byte joins if it starts with a digit, and otherwise
      reading ends. */
  lemma NextPairRead(s: string, k: nat, acc: nat)
    requires 2 * k + 1 < |s| && Parses(Pairs(s))
    ensures LeadingHex(s[2 * k..], acc)
            == if IsHex(s[2 * k]) then LeadingHex(s[2 * k + 2..], 256 * acc + Decoded(s)[k]) else acc
  {
    assert ParsePair(Pairs(s)[k]).used == 2;
    if IsHex(s[2 * k]) {
      PairRead(s[2 * k..], acc);
      assert s[2 * k..][2..] == s[2 * k + 2..];
      assert PairAt(s[2 * k..], 0) == PairAt(s, k);
    }
  }

  lemma PairParses(s: string, k: nat)
    requires 2 * k + 1 < |s| && Parses(Pairs(s))
    ensures ParsePair((s[2 * k], s[2 * k + 1])).used == 2
    ensures Decoded(s)[k] == ParsePair((s[2 * k], s[2 * k + 1])).value
  {
    assert ParsePair(Pairs(s)[k]).used == 2;
  }

  lemma UnsignedRead(t: string)
    requires |t| >= 2 && IsHex(t[0]) && (IsHex(t[1]) || IsSpace(t[1]) || t[1] == '+' || t[1] == '-')
    ensures Strtoull(t) == LeadingHex(t, 0) && Strtoull("+" + t) == LeadingHex(t, 0)
    ensures LeadingHex(t, 0) == LeadingHex(t[1..], Digit(t[0]))
  {
    assert SkipSpaces("+" + t) == "+" + t && ("+" + t)[1..] == t;
  }

  /** A space or a plus sign may stand for the first digit, for both readers. */
  lemma FirstPairRead(s: string)
    requires |s| == 8 && Parses(Pairs(s)) && s[0] != '-'
    ensures Strtoull(s) == LeadingHex(s[2..], Decoded(s)[0])
  {
    PairParses(s, 0);
    PairParses(s, 1);
    var t := s[1..];
    assert t[1..] == s[2..];
    if IsHex(s[0]) {
      UnsignedRead(s);
      PairRead(s, 0);
    } else {
      UnsignedRead(t);
      if s[0] == '+' {
        assert "+" + t == s;
      } else {
        assert SkipSpaces(s) == t && SkipSpaces(t) == t;
      }
    }
  }

  predicate PlainNonce(s: string) {
    |s| == 8 && (IsHex(s[0]) || IsSpace(s[0]) || s[0] == '+') && AllHex(s[1..])
  }

  lemma PlainParses(s: string)
    requires PlainNonce(s)
    ensures Parses(Pairs(s))
  {
    assert forall k :: 1 <= k < 8 ==> s[k] == s[1..][k - 1];
    forall k | 0 <= k < 4
      ensures ParsePair(Pairs(s)[k]).used == 2
    {
      assert Pairs(s)[k] == (s[2 * k], s[2 * k + 1]);
    }
  }

  /** How many bytes are read before a pair does not start with a digit. */
  function BytesRead(s: string): nat
    requires |s| == 8
  {
    if !IsHex(s[2]) then 1 else if !IsHex(s[4]) then 2 else if !IsHex(s[6]) then 3 else 4
  }

  lemma PlainIsRead(s: string)
    requires |s| == 8 && Parses(Pairs(s)) && s[0] != '-'
    ensures BytesRead(s) == 4 <==> PlainNonce(s)
  {
    PairParses(s, 0);
    PairParses(s, 1);
    PairParses(s, 2);
    PairParses(s, 3);
    var t := s[1..];
    assert t[0] == s[1] && t[1] == s[2] && t[2] == s[3] && t[3] == s[4] && t[4] == s[5] && t[5] == s[6] && t[6] == s[7];
    assert IsHex(s[1]) && IsHex(s[3]) && IsHex(s[5]) && IsHex(s[7]);
    assert AllHex(t) <==> IsHex(s[2]) && IsHex(s[4]) && IsHex(s[6]);
  }

  lemma FieldRead(s: string)
    requires |s| == 8 && Parses(Pairs(s)) && s[0] != '-'
    ensures var b, n := Decoded(s), BytesRead(s);
            Strtoull(s) == if n == 1 then Quad(b[0], 0, 0, 0)
                           else if n == 2 then Quad(b[1], b[0], 0, 0)
                           else if n == 3 then Quad(b[2], b[1], b[0], 0)
                           else Quad(b[3], b[2], b[1], b[0])
  {
    var b := Decoded(s);
    var b0: int := b[0];
    FirstPairRead(s);
    NextPairRead(s, 1, b0);
    NextPairRead(s, 2, 256 * b0 + b[1]);
    NextPairRead(s, 3, 256 * (256 * b0 + b[1]) + b[2]);
    assert s[8..] == "";
  }

  lemma FourBytes(b: seq<Byte>)
    requires |b| == 4
    ensures Little(b) == Quad(b[0], b[1], b[2], b[3])
  {
    var b1, b2, b3 := b[1..], b[2..], b[3..];
    assert b1[1..] == b2 && b2[1..] == b3 && b3[1..] == [];
    assert Little(b3) == b[3] && Little(b2) == b[2] + 256 * Little(b3);
    assert Little(b1) == b[1] + 256 * Little(b2);
  }

  lemma LowDigit(a: Byte, m: nat)
    ensures (a + 256 * m) % 256 == a && (a + 256 * m) / 256 == m
  {
  }

  lemma FourDigits(a: Byte, b: Byte, c: Byte, d: Byte)
    ensures 0 <= Quad(a, b, c, d) < TWO_32 && SwapEnds(Quad(a, b, c, d)) == Quad(d, c, b, a)
  {
    LowDigit(a, b + 256 * (c + 256 * d as int));
    LowDigit(b, c + 256 * d as int);
    LowDigit(c, d);
  }

  lemma SwapQuad(n: nat, a: Byte, b: Byte, c: Byte, d: Byte)
    requires n == Quad(a, b, c, d)
    ensures SwapEnds(n % TWO_32) == Quad(d, c, b, a)
  {
    FourDigits(a, b, c, d);
    SmallRemainder(n, TWO_32);
  }

  lemma SmallRemainder(n: nat, m: nat)
    requires n < m
    ensures n % m == n
  {
  }

  lemma QuadIsInjective(a: Byte, b: Byte, c: Byte, d: Byte, e: Byte, f: Byte, g: Byte, h: Byte)
    ensures Quad(a, b, c, d) == Quad(e, f, g, h) <==> a == e && b == f && c == g && d == h
  {
    LowDigit(a, b + 256 * (c + 256 * d as int));
    LowDigit(e, f + 256 * (g + 256 * h as int));
    LowDigit(b, c + 256 * d as int);
    LowDigit(f, g + 256 * h as int);
  }

  /** The first n bytes of a field, as the high end of its word. */
  function FirstBytes(b: seq<Byte>, n: nat): int
    requires |b| == 4
  {
    if n == 1 then Quad(0, 0, 0, b[0])
    else if n == 2 then Quad(0, 0, b[0], b[1])
    else if n == 3 then Quad(0, b[0], b[1], b[2])
    else Quad(b[0], b[1], b[2], b[3])
  }

  lemma SwappedRead(s: string)
    requires |s| == 8 && Parses(Pairs(s)) && s[0] != '-'
    ensures SwapEnds(Strtoull(s) % TWO_32) == FirstBytes(Decoded(s), BytesRead(s))
  {
    var b, n := Decoded(s), BytesRead(s);
    FieldRead(s);
    if n == 1 {
      SwapQuad(Strtoull(s), b[0], 0, 0, 0);
    } else if n == 2 {
      SwapQuad(Strtoull(s), b[1], b[0], 0, 0);
    } else if n == 3 {
      SwapQuad(Strtoull(s), b[2], b[1], b[0], 0);
    } else {
      SwapQuad(Strtoull(s), b[3], b[2], b[1], b[0]);
    }
  }

  predicate AllZero(b: seq<Byte>) {
    forall k :: 0 <= k < |b| ==> b[k] == 0
  }

  lemma ShortReadsDiffer(a: Byte, b: Byte, c: Byte, d: Byte)
    ensures Quad(0, 0, 0, a) == Quad(a, b, c, d) <==> a == b == c == d == 0
    ensures Quad(0, 0, a, b) == Quad(a, b, c, d) <==> a == b == c == d == 0
    ensures Quad(0, a, b, c) == Quad(a, b, c, d) <==> a == b == c == d == 0
  {
    QuadIsInjective(0, 0, 0, a, a, b, c, d);
    QuadIsInjective(0, 0, a, b, a, b, c, d);
    QuadIsInjective(0, a, b, c, a, b, c, d);
  }

  lemma FirstBytesAgree(b: seq<Byte>, n: nat)
    requires |b| == 4 && 1 <= n <= 4
    ensures FirstBytes(b, n) == Little(b) <==> n == 4 || AllZero(b)
  {
    FourBytes(b);
    ShortReadsDiffer(b[0], b[1], b[2], b[3]);
    assert AllZero(b) <==> b[0] == b[1] == b[2] == b[3] == 0;
  }

  lemma ReadersAgree(s: string)
    requires |s| == 8 && Parses(Pairs(s)) && s[0] != '-'
    ensures SwapEnds(Strtoull(s) % TWO_32) == Little(Decoded(s)) <==> PlainNonce(s) || AllZero(Decoded(s))
  {
    SwappedRead(s);
    PlainIsRead(s);
    FirstBytesAgree(Decoded(s), BytesRead(s));
  }

  function Negated(n: nat): nat
    requires n < TWO_32
  {
    if n == 0 then 0 else TWO_32 - n
  }

  function NegatedByte(h: Byte): Byte {
    if h == 0 then 0 else 256 - h
  }

  /** The bytes of a negated word: a minus sign in front negates the first byte for the one reader
      and the whole word for the other. */
  function NegatedBytes(h: Byte, b: Byte, c: Byte, d: Byte): int {
    if d > 0 then Quad(255 - h, 255 - b, 255 - c, 256 - d)
    else if c > 0 then Quad(255 - h, 255 - b, 256 - c, 0)
    else if b > 0 then Quad(255 - h, 256 - b, 0, 0)
    else Quad(NegatedByte(h), 0, 0, 0)
  }

  /** The same bytes as a number, lowest first. */
  lemma NegatedQuad(h: Byte, b: Byte, c: Byte, d: Byte)
    ensures 0 <= Quad(d, c, b, h) < TWO_32
    ensures Negated(Quad(d, c, b, h))
            == if d > 0 then Quad(256 - d, 255 - c, 255 - b, 255 - h)
               else if c > 0 then Quad(0, 256 - c, 255 - b, 255 - h)
               else if b > 0 then Quad(0, 0, 256 - b, 255 - h)
               else Quad(0, 0, 0, NegatedByte(h))
  {
  }

  lemma SwapOf(n: nat, a: Byte, b: Byte, c: Byte, d: Byte)
    requires n == Quad(a, b, c, d)
    ensures SwapEnds(n) == Quad(d, c, b, a)
  {
    FourDigits(a, b, c, d);
  }

  lemma NegatedWord(n: nat, h: Byte, b: Byte, c: Byte, d: Byte)
    requires n == Quad(d, c, b, h) && n < TWO_32
    ensures SwapEnds(Negated(n)) == NegatedBytes(h, b, c, d)
  {
    NegatedQuad(h, b, c, d);
    var m := Negated(n);
    if d > 0 {
      SwapOf(m, 256 - d, 255 - c, 255 - b, 255 - h);
    } else if c > 0 {
      SwapOf(m, 0, 256 - c, 255 - b, 255 - h);
    } else if b > 0 {
      SwapOf(m, 0, 0, 256 - b, 255 - h);
    } else {
      SwapOf(m, 0, 0, 0, NegatedByte(h));
    }
  }

  /** The bytes of the negation of the first n bytes h, b, c, d. */
  function NegatedFirst(h: Byte, b: Byte, c: Byte, d: Byte, n: nat): int {
    if n == 1 then NegatedBytes(0, 0, 0, h)
    else if n == 2 then NegatedBytes(0, 0, h, b)
    else if n == 3 then NegatedBytes(0, h, b, c)
    else NegatedBytes(h, b, c, d)
  }

  /** A field after a minus sign that is read alike: zero, or, by how many bytes are read, one of three
      words, or a first byte alone. */
  predicate NegatedAlike(b: seq<Byte>, n: nat)
    requires |b| == 4
  {
    || (b[0] == b[1] == b[2] == b[3] == 0)
    || (n == 1 && b[0] == b[1] == b[2] == b[3] == 255)
    || (n == 2 && b[0] == b[1] == 255 && b[2] == 254 && b[3] == 1)
    || (n == 3 && b[0] == 255 && b[1] == 254 && b[2] == 1 && b[3] == 255)
    || (n == 4 && b[1] == b[2] == b[3] == 0)
  }

  lemma QuadOf(x: int, y: int, z: int, w: int, a: Byte, b: Byte, c: Byte, d: Byte)
    requires 0 <= x < 256 && 0 <= y < 256 && 0 <= z < 256 && 0 <= w < 256
    ensures Quad(x, y, z, w) == Quad(a, b, c, d) <==> x == a && y == b && z == c && w == d
  {
    QuadIsInjective(x, y, z, w, a, b, c, d);
  }

  lemma NegatedBytesAre(h: Byte, b: Byte, c: Byte, d: Byte, w: Byte, x: Byte, y: Byte, z: Byte)
    ensures NegatedBytes(h, b, c, d) == Quad(w, x, y, z)
            <==> if d > 0 then w == 255 - h && x == 255 - b && y == 255 - c && z == 256 - d
                 else if c > 0 then w == 255 - h && x == 255 - b && y == 256 - c && z == 0
                 else if b > 0 then w == 255 - h && x == 256 - b && y == 0 && z == 0
                 else w == NegatedByte(h) && x == 0 && y == 0 && z == 0
  {
    if d > 0 {
      QuadOf(255 - h, 255 - b, 255 - c, 256 - d, w, x, y, z);
    } else if c > 0 {
      QuadOf(255 - h, 255 - b, 256 - c, 0, w, x, y, z);
    } else if b > 0 {
      QuadOf(255 - h, 256 - b, 0, 0, w, x, y, z);
    } else {
      QuadOf(NegatedByte(h), 0, 0, 0, w, x, y, z);
    }
  }

  lemma NegatedAgrees(h: Byte, b: Byte, c: Byte, d: Byte, n: nat)
    requires 1 <= n <= 4
    ensures NegatedFirst(h, b, c, d, n) == Quad(NegatedByte(h), b, c, d) <==> NegatedAlike([NegatedByte(h), b, c, d], n)
  {
    if n == 1 {
      NegatedBytesAre(0, 0, 0, h, NegatedByte(h), b, c, d);
    } else if n == 2 {
      NegatedBytesAre(0, 0, h, b, NegatedByte(h), b, c, d);
    } else if n == 3 {
      NegatedBytesAre(0, h, b, c, NegatedByte(h), b, c, d);
    } else {
      NegatedBytesAre(h, b, c, d, NegatedByte(h), b, c, d);
    }
  }

  lemma LowWord(n: nat)
    requires n < TWO_32
    ensures (TWO_64 - n % TWO_64) % TWO_64 % TWO_32 == Negated(n)
  {
  }

  /** The field with the minus sign replaced by a zero. */
  function Unsigned(s: string): (t: string)
    requires |s| == 8
    ensures |t| == 8
  {
    "0" + s[1..]
  }

  lemma NegatedPairs(s: string)
    requires |s| == 8 && Parses(Pairs(s)) && s[0] == '-'
    ensures Parses(Pairs(Unsigned(s))) && BytesRead(Unsigned(s)) == BytesRead(s)
    ensures var b, c := Decoded(s), Decoded(Unsigned(s));
            b[0] == NegatedByte(c[0]) && b[1] == c[1] && b[2] == c[2] && b[3] == c[3]
  {
    var t := Unsigned(s);
    PairParses(s, 0);
    PairParses(s, 1);
    PairParses(s, 2);
    PairParses(s, 3);
    assert forall k :: 1 <= k < 8 ==> t[k] == s[k];
    assert Pairs(t)[0] == ('0', s[1]);
    assert Pairs(t)[1] == (s[2], s[3]) && Pairs(t)[2] == (s[4], s[5]) && Pairs(t)[3] == (s[6], s[7]);
    assert Parses(Pairs(t));
  }

  lemma SignedRead(s: string)
    requires |s| == 8 && Parses(Pairs(s)) && s[0] == '-'
    ensures Strtoull(s) == (TWO_64 - Strtoull(Unsigned(s)) % TWO_64) % TWO_64
  {
    var t := Unsigned(s);
    assert t[1..] == s[1..];
    PairParses(s, 0);
    PairParses(s, 1);
    UnsignedRead(t);
    assert SkipSpaces(s) == s;
    assert s[1..][0] == s[1] && s[1..][1] == s[2];
  }

  lemma NegatedSwapped(m: nat, c: seq<Byte>, n: nat)
    requires |c| == 4 && 1 <= n <= 4
    requires m == if n == 1 then Quad(c[0], 0, 0, 0)
                  else if n == 2 then Quad(c[1], c[0], 0, 0)
                  else if n == 3 then Quad(c[2], c[1], c[0], 0)
                  else Quad(c[3], c[2], c[1], c[0])
    ensures m < TWO_32 && SwapEnds(Negated(m)) == NegatedFirst(c[0], c[1], c[2], c[3], n)
  {
    if n == 1 {
      NegatedQuad(0, 0, 0, c[0]);
      NegatedWord(m, 0, 0, 0, c[0]);
    } else if n == 2 {
      NegatedQuad(0, 0, c[0], c[1]);
      NegatedWord(m, 0, 0, c[0], c[1]);
    } else if n == 3 {
      NegatedQuad(0, c[0], c[1], c[2]);
      NegatedWord(m, 0, c[0], c[1], c[2]);
    } else {
      NegatedQuad(c[0], c[1], c[2], c[3]);
      NegatedWord(m, c[0], c[1], c[2], c[3]);
    }
  }

  lemma NegatedRead(s: string)
    requires |s| == 8 && Parses(Pairs(s)) && s[0] == '-'
    ensures var c := Decoded(Unsigned(s));
            SwapEnds(Strtoull(s) % TWO_32) == NegatedFirst(c[0], c[1], c[2], c[3], BytesRead(s))
  {
    var t := Unsigned(s);
    NegatedPairs(s);
    FieldRead(t);
    SignedRead(s);
    NegatedSwapped(Strtoull(t), Decoded(t), BytesRead(s));
    LowWord(Strtoull(t));
  }

  lemma NegatedReadersAgree(s: string)
    requires |s| == 8 && Parses(Pairs(s)) && s[0] == '-'
    ensures SwapEnds(Strtoull(s) % TWO_32) == Little(Decoded(s)) <==> NegatedAlike(Decoded(s), BytesRead(s))
  {
    var b, c := Decoded(s), Decoded(Unsigned(s));
    NegatedPairs(s);
    NegatedRead(s);
    NegatedAgrees(c[0], c[1], c[2], c[3], BytesRead(s));
    FourBytes(b);
    assert b == [NegatedByte(c[0]), c[1], c[2], c[3]];
  }

  /** The nonce fields that both readers take for the same word: plain ones and zeros, and a few after
      a minus sign. */
  predicate ReadAlike(s: string) {
    && |s| == 8 && Parses(Pairs(s))
    && if s[0] == '-' then NegatedAlike(Decoded(s), BytesRead(s)) else PlainNonce(s) || AllZero(Decoded(s))
  }

  /** For any nonce field that decodes, the nonce used to detect duplicates is the big-endian value of
      bytes 76 to 80 of the header exactly when the field is read alike. */
  lemma NonceOfHeader(data: string)
    requires |data| >= HEADER_CHARS && Parses(Pairs(data[152..160]))
    ensures Nonce(data) == Big(HeaderBytes(data)[76..80]) <==> ReadAlike(data[152..160])
  {
    if data[152] == '-' {
      NegatedReadersAgree(data[152..160]);
    } else {
      ReadersAgree(data[152..160]);
    }
    LastHeaderWord(data);
  }

  lemma PlainIsReadAlike(s: string)
    requires PlainNonce(s)
    ensures ReadAlike(s)
  {
    PlainParses(s);
  }

  lemma LastHeaderWord(data: string)
    requires |data| >= HEADER_CHARS
    ensures Big(HeaderBytes(data)[76..80]) == Little(Decoded(data[152..160]))
  {
    HeaderWord(data, 19);
    LastWord(HeaderBytes(data));
    BackwardsTwice(Decoded(data[152..160]));
  }

  lemma LastWord(b: seq<Byte>)
    requires |b| == 80
    ensures Word(b, 19) == b[76..80]
  {
  }

  lemma BackwardsTwice<T>(b: seq<T>)
    ensures Backwards(Backwards(b)) == b
  {
  }

  lemma NoncesEqualIffBytesEqual(data: string, other: string)
    requires |data| >= HEADER_CHARS && |other| >= HEADER_CHARS
    requires ReadAlike(data[152..160]) && ReadAlike(other[152..160])
    ensures Nonce(data) == Nonce(other) <==> HeaderBytes(data)[76..80] == HeaderBytes(other)[76..80]
  {
    NonceOfHeader(data);
    NonceOfHeader(other);
    var b, c := HeaderBytes(data)[76..80], HeaderBytes(other)[76..80];
    LittleIsInjective(Backwards(b), Backwards(c));
    BackwardsTwice(b);
    BackwardsTwice(c);
  }
}
