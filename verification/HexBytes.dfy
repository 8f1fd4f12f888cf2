/** Hexadecimal strings and the bytes they stand for, as the share validator handles them:
    in-place swaps of hex pairs and of words, and the pair-by-pair decoder. */
module HexBytes {
  import opened Common

  type Byte = x: int | 0 <= x < 256

  // ---------- the C library's readers ----------

  predicate IsHex(c: char) {
    '0' <= c <= '9' || 'a' <= c <= 'f' || 'A' <= c <= 'F'
  }

  predicate IsSpace(c: char) {
    c == ' ' || '\t' <= c <= '\r'
  }

  function Digit(c: char): (d: nat)
    requires IsHex(c)
    ensures d < 16
  {
    if '0' <= c <= '9' then (c - '0') as nat
    else if 'a' <= c <= 'f' then (c - 'a') as nat + 10
    else (c - 'A') as nat + 10
  }

  /** What `strtoul (pair, &end, 16)` makes of a two-character string: the value kept in a
      byte, and how many characters were consumed. */
  datatype Parsed = Parsed(value: Byte, used: nat)

  function Strtoul(a: char, b: char): Parsed {
    if IsHex(a) then
      if IsHex(b) then Parsed(16 * Digit(a) + Digit(b), 2) else Parsed(Digit(a), 1)
    else if !IsHex(b) then Parsed(0, 0)
    else if IsSpace(a) || a == '+' then Parsed(Digit(b), 2)
    else if a == '-' then Parsed((256 - Digit(b)) % 256, 2)
    else Parsed(0, 0)
  }

  // ---------- strings as sequences of character pairs ----------

  type Pair = (char, char)

  function PairAt(s: string, k: nat): Pair
    requires 2 * k + 1 < |s|
  {
    (s[2 * k], s[2 * k + 1])
  }

  function Pairs(s: string): (p: seq<Pair>)
    ensures |p| == |s| / 2
    ensures forall k :: 0 <= k < |p| ==> p[k] == PairAt(s, k)
  {
    seq(|s| / 2, (k: nat) requires k < |s| / 2 => PairAt(s, k))
  }

  lemma ValuesOfWord(s: string, g: nat)
    requires 8 * g + 8 <= |s|
    ensures Word(Values(Pairs(s)), g) == Values(Pairs(s[8 * g..8 * g + 8]))
  {
    PairsOfSlice(s, 4 * g, 4 * g + 4);
  }

  lemma PairsOfSlice(s: string, i: nat, j: nat)
    requires i <= j && 2 * j <= |s|
    ensures Pairs(s[2 * i..2 * j]) == Pairs(s)[i..j]
  {
  }

  function ParsePair(p: Pair): Parsed {
    Strtoul(p.0, p.1)
  }

  predicate Parses(p: seq<Pair>) {
    forall k :: 0 <= k < |p| ==> ParsePair(p[k]).used == 2
  }

  /** The bytes that pairs stand for. */
  function Values(p: seq<Pair>): (b: seq<Byte>)
    ensures |b| == |p|
    ensures forall k :: 0 <= k < |b| ==> b[k] == ParsePair(p[k]).value
  {
    seq(|p|, (k: nat) requires k < |p| => ParsePair(p[k]).value)
  }

  function Decode(p: seq<Pair>): Option<seq<Byte>> {
    if Parses(p) then Some(Values(p)) else None
  }

  /** The pair that stops the decoder, or the number of pairs if none does. */
  function FirstBad(p: seq<Pair>, from: nat): (k: nat)
    requires from <= |p|
    ensures from <= k <= |p|
    ensures forall j :: from <= j < k ==> ParsePair(p[j]).used == 2
    ensures k < |p| ==> ParsePair(p[k]).used != 2
    decreases |p| - from
  {
    if from == |p| || ParsePair(p[from]).used != 2 then from else FirstBad(p, from + 1)
  }

  method HexToBin(hex: string, hexSize: nat, bin: array<Byte>) returns (ok: bool)
    requires hexSize <= |hex| && hexSize / 2 <= bin.Length
    modifies bin
    ensures ok <==> Parses(Pairs(hex[..hexSize]))
    ensures ok ==> bin[..hexSize / 2] == Values(Pairs(hex[..hexSize]))
    ensures forall k :: 0 <= k < bin.Length ==>
              bin[k] == if k < hexSize / 2 && k <= FirstBad(Pairs(hex[..hexSize]), 0)
                        then ParsePair(Pairs(hex[..hexSize])[k]).value else old(bin[k])
  {
    ghost var p := Pairs(hex[..hexSize]);
    for i := 0 to hexSize / 2
      invariant i <= FirstBad(p, 0)
      invariant forall k :: 0 <= k < bin.Length ==>
                  bin[k] == if k < i then ParsePair(p[k]).value else old(bin[k])
    {
      var parsed := Strtoul(hex[2 * i], hex[2 * i + 1]);
      assert p[i] == PairAt(hex[..hexSize], i);
      bin[i] := parsed.value;
      if parsed.used != 2 {
        return false;
      }
    }
    return true;
  }

  // ---------- printing, and decoding what was printed ----------

  function HexChar(d: nat, upper: bool): (c: char)
    requires d < 16
    ensures IsHex(c) && Digit(c) == d
  {
    if d < 10 then '0' + d as char else if upper then 'A' + (d - 10) as char else 'a' + (d - 10) as char
  }

  /** Two digits a byte; `upper` says, counting from the end, which digits are in upper case. */
  function Print(b: seq<Byte>, upper: nat -> bool): (s: string)
    ensures |s| == 2 * |b|
  {
    if b == [] then [] else PrintByte(b[0], upper(2 * |b|), upper(2 * |b| - 1)) + Print(b[1..], upper)
  }

  function PrintByte(x: Byte, upperHigh: bool, upperLow: bool): (s: string)
    ensures |s| == 2
  {
    [HexChar(x / 16, upperHigh), HexChar(x % 16, upperLow)]
  }

  lemma DecodePrintedByte(x: Byte, upperHigh: bool, upperLow: bool)
    ensures Parses(Pairs(PrintByte(x, upperHigh, upperLow))) && Values(Pairs(PrintByte(x, upperHigh, upperLow))) == [x]
  {
    var s := PrintByte(x, upperHigh, upperLow);
    assert Pairs(s)[0] == (s[0], s[1]);
    assert 16 * (x / 16) + x % 16 == x;
  }

  lemma {:induction false} DecodePrint(b: seq<Byte>, upper: nat -> bool)
    ensures Decode(Pairs(Print(b, upper))) == Some(b)
  {
    if b != [] {
      DecodePrint(b[1..], upper);
      var one, rest := PrintByte(b[0], upper(2 * |b|), upper(2 * |b| - 1)), Print(b[1..], upper);
      DecodePrintedByte(b[0], upper(2 * |b|), upper(2 * |b| - 1));
      PairsInParts(one, rest, 1);
      ParsesInParts(Pairs(one), Pairs(rest));
      ValuesInParts(Pairs(one), Pairs(rest));
      assert b == [b[0]] + b[1..];
    }
  }

  // ---------- swapping byte pairs in place ----------

  /** Where position k of a range reversed in place comes from. */
  function Mirror(from: nat, len: nat, k: nat): nat {
    if from <= k < from + len then 2 * from + len - 1 - k else k
  }

  function RangeReversed<T>(p: seq<T>, from: nat, len: nat): (r: seq<T>)
    requires from + len <= |p|
    ensures |r| == |p|
    ensures forall k :: 0 <= k < |p| ==> r[k] == p[Mirror(from, len, k)]
  {
    seq(|p|, (k: nat) requires k < |p| => p[Mirror(from, len, k)])
  }

  function Exchanged<T>(p: seq<T>, i: nat, j: nat): (r: seq<T>)
    requires i < |p| && j < |p|
    ensures |r| == |p|
  {
    p[i := p[j]][j := p[i]]
  }

  method SwapPair(hex: array<char>, i: nat, j: nat)
    requires 2 * i + 1 < hex.Length && 2 * j + 1 < hex.Length
    modifies hex
    ensures Pairs(hex[..]) == Exchanged(Pairs(old(hex[..])), i, j)
    ensures hex.Length % 2 == 1 ==> hex[hex.Length - 1] == old(hex[hex.Length - 1])
  {
    var t0, t1 := hex[2 * i], hex[2 * i + 1];
    hex[2 * i] := hex[2 * j];
    hex[2 * i + 1] := hex[2 * j + 1];
    hex[2 * j], hex[2 * j + 1] := t0, t1;
    forall k | 0 <= k < hex.Length / 2
      ensures PairAt(hex[..], k) == PairAt(old(hex[..]), if k == i then j else if k == j then i else k)
    {
    }
  }

  /** A range after its outermost `done` positions on each side have been exchanged. */
  ghost function PartlyReversed<T>(p: seq<T>, from: nat, len: nat, done: nat): (r: seq<T>)
    requires from + len <= |p|
    ensures |r| == |p|
    ensures forall k :: 0 <= k < |p| ==>
              r[k] == p[if from + done <= k < from + len - done then k else Mirror(from, len, k)]
  {
    seq(|p|, (k: nat) requires k < |p| =>
      p[if from + done <= k < from + len - done then k else Mirror(from, len, k)])
  }

  lemma ExchangeNext<T>(p: seq<T>, from: nat, len: nat, done: nat)
    requires from + len <= |p| && done < len / 2
    ensures PartlyReversed(p, from, len, done + 1)
            == Exchanged(PartlyReversed(p, from, len, done), from + done, from + len - 1 - done)
  {
  }

  lemma ExchangeEnds<T>(p: seq<T>, from: nat, len: nat)
    requires from + len <= |p|
    ensures PartlyReversed(p, from, len, 0) == p
    ensures PartlyReversed(p, from, len, len / 2) == RangeReversed(p, from, len)
  {
  }

  /** One round of the swap loop: the outermost two pairs not yet exchanged. */
  method SwapOutermost(hex: array<char>, from: nat, len: nat, i: nat, ghost p: seq<Pair>)
    requires i < len / 2 && 2 * (from + len) <= hex.Length && from + len <= |p|
    requires Pairs(hex[..]) == PartlyReversed(p, from, len, i)
    modifies hex
    ensures Pairs(hex[..]) == PartlyReversed(p, from, len, i + 1)
    ensures hex.Length % 2 == 1 ==> hex[hex.Length - 1] == old(hex[hex.Length - 1])
  {
    ExchangeNext(p, from, len, i);
    SwapPair(hex, from + i, from + len - 1 - i);
  }

  method SwapHexBytes2(hex: array<char>, from: nat, len: nat)
    requires 2 * (from + len) <= hex.Length
    modifies hex
    ensures Pairs(hex[..]) == RangeReversed(Pairs(old(hex[..])), from, len)
    ensures forall k :: from <= k < from + len ==> Pairs(hex[..])[k] == Pairs(old(hex[..]))[2 * from + len - 1 - k]
    ensures forall k :: 0 <= k < hex.Length / 2 && !(from <= k < from + len) ==>
              Pairs(hex[..])[k] == Pairs(old(hex[..]))[k]
    ensures hex.Length % 2 == 1 ==> hex[hex.Length - 1] == old(hex[hex.Length - 1])
  {
    ghost var p := Pairs(hex[..]);
    ExchangeEnds(p, from, len);
    for i := 0 to len / 2
      invariant Pairs(hex[..]) == PartlyReversed(p, from, len, i)
      invariant hex.Length % 2 == 1 ==> hex[hex.Length - 1] == old(hex[hex.Length - 1])
    {
      SwapOutermost(hex, from, len, i, p);
    }
  }

  /** Swapping twice restores the data, for every range, odd lengths included. */
  lemma SwapIsItsOwnInverse<T>(p: seq<T>, from: nat, len: nat)
    requires from + len <= |p|
    ensures RangeReversed(RangeReversed(p, from, len), from, len) == p
  {
    var q := RangeReversed(p, from, len);
    assert forall k :: 0 <= k < |p| ==> RangeReversed(q, from, len)[k] == q[Mirror(from, len, k)];
  }

  // ---------- words of four bytes ----------

  function Word<T>(p: seq<T>, g: nat): (w: seq<T>)
    requires 4 * g + 4 <= |p|
    ensures |w| == 4
  {
    p[4 * g..4 * g + 4]
  }

  function Backwards<T>(b: seq<T>): (r: seq<T>)
    ensures |r| == |b|
    ensures forall k :: 0 <= k < |b| ==> r[k] == b[|b| - 1 - k]
  {
    seq(|b|, (k: nat) requires k < |b| => b[|b| - 1 - k])
  }

  /** Every word with its bytes in reverse order; a shorter tail stays. */
  function WordsSwapped<T>(p: seq<T>): (r: seq<T>)
    ensures |r| == |p|
  {
    if |p| < 4 then p else Backwards(p[..4]) + WordsSwapped(p[4..])
  }

  lemma TakenSlice<T>(s: seq<T>, n: nat, i: nat, j: nat)
    requires i <= j <= n <= |s|
    ensures s[..n][i..j] == s[i..j]
  {
    assert forall k :: i <= k < j ==> s[..n][k] == s[k];
  }

  lemma DroppedSlice<T>(s: seq<T>, n: nat, i: nat, j: nat)
    requires n <= |s| && i <= j <= |s| - n
    ensures s[n..][i..j] == s[n + i..n + j]
  {
    assert forall k :: i <= k < j ==> s[n..][k] == s[n + k];
  }

  lemma JoinedSlice<T>(s: seq<T>, t: seq<T>, i: nat, j: nat)
    requires i <= j <= |t|
    ensures (s + t)[|s| + i..|s| + j] == t[i..j]
  {
    assert forall k :: i <= k < j ==> (s + t)[|s| + k] == t[k];
  }

  lemma {:induction false} SwappedWord<T>(p: seq<T>, g: nat)
    requires 4 * g + 4 <= |p|
    ensures Word(WordsSwapped(p), g) == Backwards(Word(p, g))
  {
    if g == 0 {
      assert WordsSwapped(p)[..4] == Backwards(p[..4]);
    } else {
      SwappedWord(p[4..], g - 1);
      DroppedSlice(p, 4, 4 * g - 4, 4 * g);
      JoinedSlice(Backwards(p[..4]), WordsSwapped(p[4..]), 4 * g - 4, 4 * g);
    }
  }

  lemma {:induction false} SwapOneMore<T>(p: seq<T>, words: nat)
    requires 4 * words + 4 <= |p|
    ensures WordsSwapped(p[..4 * words + 4]) == WordsSwapped(p[..4 * words]) + Backwards(Word(p, words))
  {
    var q := p[..4 * words + 4];
    if words == 0 {
      assert q[..4] == q && q[4..] == [];
    } else {
      SwapOneMore(p[4..], words - 1);
      assert p[4..][..4 * words] == q[4..];
      assert p[4..][..4 * words - 4] == p[..4 * words][4..];
      DroppedSlice(p, 4, 4 * words - 4, 4 * words);
      assert p[..4 * words][..4] == q[..4];
      var head, rest := Backwards(q[..4]), WordsSwapped(p[..4 * words][4..]);
      assert head + (rest + Backwards(Word(p, words))) == (head + rest) + Backwards(Word(p, words));
    }
  }

  lemma ReverseNextWord<T>(p: seq<T>, words: nat)
    requires 4 * words + 4 <= |p|
    ensures RangeReversed(WordsSwapped(p[..4 * words]) + p[4 * words..], 4 * words, 4)
            == WordsSwapped(p[..4 * words + 4]) + p[4 * words + 4..]
  {
    SwapOneMore(p, words);
  }

  /** One round of the loop over the words. */
  method SwapNextWord(data: array<char>, word: nat, ghost p: seq<Pair>)
    requires 8 * word + 8 <= data.Length && data.Length == 2 * |p|
    requires Pairs(data[..]) == WordsSwapped(p[..4 * word]) + p[4 * word..]
    modifies data
    ensures Pairs(data[..]) == WordsSwapped(p[..4 * word + 4]) + p[4 * word + 4..]
  {
    ReverseNextWord(p, word);
    SwapHexBytes2(data, 4 * word, 4);
  }

  method SwapWords(data: array<char>, words: nat)
    requires data.Length == 8 * words
    modifies data
    ensures Pairs(data[..]) == WordsSwapped(Pairs(old(data[..])))
  {
    ghost var p := Pairs(data[..]);
    assert WordsSwapped(p[..0]) + p[0..] == p;
    for word := 0 to words
      invariant Pairs(data[..]) == WordsSwapped(p[..4 * word]) + p[4 * word..]
    {
      SwapNextWord(data, word, p);
    }
    assert p[..4 * words] == p && p[4 * words..] == [];
  }

  /** Decoding after a reversal reads the same bytes backwards. */
  lemma BackwardsThenDecode(p: seq<Pair>)
    ensures Parses(Backwards(p)) <==> Parses(p)
    ensures Values(Backwards(p)) == Backwards(Values(p))
  {
    if Parses(Backwards(p)) {
      forall k | 0 <= k < |p|
        ensures ParsePair(p[k]).used == 2
      {
        assert Backwards(p)[|p| - 1 - k] == p[k];
      }
    }
  }

  lemma ParsesInParts(p: seq<Pair>, q: seq<Pair>)
    ensures Parses(p + q) <==> Parses(p) && Parses(q)
  {
    if Parses(p + q) {
      assert forall k :: 0 <= k < |p| ==> p[k] == (p + q)[k];
      assert forall k :: 0 <= k < |q| ==> q[k] == (p + q)[|p| + k];
    }
  }

  lemma ValuesInParts(p: seq<Pair>, q: seq<Pair>)
    ensures Values(p + q) == Values(p) + Values(q)
  {
  }

  /** Swapping words and then decoding is decoding and then swapping words. */
  lemma SwapThenDecode(p: seq<Pair>)
    ensures Parses(WordsSwapped(p)) <==> Parses(p)
    ensures Values(WordsSwapped(p)) == WordsSwapped(Values(p))
  {
    SwapKeepsParsing(p);
    SwapThenValues(p);
  }

  lemma {:induction false} SwapKeepsParsing(p: seq<Pair>)
    ensures Parses(WordsSwapped(p)) <==> Parses(p)
  {
    if |p| >= 4 {
      var word, rest := p[..4], p[4..];
      SwapKeepsParsing(rest);
      BackwardsThenDecode(word);
      ParsesInParts(Backwards(word), WordsSwapped(rest));
      ParsesInParts(word, rest);
      assert p == word + rest;
    }
  }

  lemma {:induction false} SwapThenValues(p: seq<Pair>)
    ensures Values(WordsSwapped(p)) == WordsSwapped(Values(p))
  {
    if |p| >= 4 {
      var word, rest := p[..4], p[4..];
      SwapThenValues(rest);
      BackwardsThenDecode(word);
      ValuesInParts(Backwards(word), WordsSwapped(rest));
      assert Values(p)[..4] == Values(word) && Values(p)[4..] == Values(rest);
    } else {
      assert Values(p) == WordsSwapped(Values(p));
    }
  }

  lemma {:induction false} WordsDetermine<T>(p: seq<T>, q: seq<T>, words: nat)
    requires |p| == |q| == 4 * words
    requires forall g :: 0 <= g < words ==> Word(p, g) == Word(q, g)
    ensures p == q
    decreases words
  {
    if words > 0 {
      var m := words - 1;
      forall g | 0 <= g < m
        ensures Word(p[..4 * m], g) == Word(q[..4 * m], g)
      {
        assert Word(p, g) == Word(p[..4 * m], g) && Word(q, g) == Word(q[..4 * m], g);
      }
      WordsDetermine(p[..4 * m], q[..4 * m], m);
      assert Word(p, m) == Word(q, m);
      assert p == p[..4 * m] + Word(p, m) && q == q[..4 * m] + Word(q, m);
    }
  }

  // ---------- the block hash as the node reports it ----------

  /** The eight-character words of a string in reverse order. */
  function WordsInReverse(h: string): (r: string)
    ensures |r| == |h|
  {
    if |h| < 8 then h else WordsInReverse(h[8..]) + h[..8]
  }

  lemma ReverseOneMore(h: string, word: nat)
    requires 8 * word + 8 <= |h|
    ensures var n := |h| - 8 * word;
            WordsInReverse(h[n - 8..]) == WordsInReverse(h[n..]) + h[n - 8..n]
  {
    var n := |h| - 8 * word;
    assert h[n - 8..][8..] == h[n..] && h[n - 8..][..8] == h[n - 8..n];
  }

  /** memcpy of one word */
  method CopyWord(a: array<char>, to: nat, text: string, from: nat)
    requires to + 8 <= a.Length && from + 8 <= |text|
    modifies a
    ensures a[..to + 8] == old(a[..to]) + text[from..from + 8]
  {
    forall j | 0 <= j < 8 {
      a[to + j] := text[from + j];
    }
    assert a[..to] == old(a[..to]) && a[to..to + 8] == text[from..from + 8];
    assert a[..to + 8] == a[..to] + a[to..to + 8];
  }

  /** How the validator stores the first 64 characters of what `getblockhash` returned. */
  method ReverseWords(text: string) returns (r: string)
    requires |text| >= 64
    ensures r == WordsInReverse(text[..64])
  {
    ghost var h := text[..64];
    var a := new char[64];
    for word := 0 to 8
      invariant a[..8 * word] == WordsInReverse(h[64 - 8 * word..])
    {
      ReverseOneMore(h, word);
      TakenSlice(text, 64, 56 - 8 * word, 64 - 8 * word);
      CopyWord(a, 8 * word, text, 56 - 8 * word);
    }
    assert h[64 - 64..] == h && a[..64] == a[..];
    r := a[..];
  }

  lemma PairsInParts(s: string, t: string, n: nat)
    requires |s| == 2 * n
    ensures Pairs(s + t) == Pairs(s) + Pairs(t)
  {
    forall k | 0 <= k < n + |t| / 2
      ensures PairAt(s + t, k) == if k < n then PairAt(s, k) else PairAt(t, k - n)
    {
    }
  }

  lemma {:induction false} WordsSwappedInParts<T>(p: seq<T>, q: seq<T>, words: nat)
    requires |p| == 4 * words
    ensures WordsSwapped(p + q) == WordsSwapped(p) + WordsSwapped(q)
    decreases words
  {
    if words == 0 {
      assert p + q == q;
    } else {
      WordsSwappedInParts(p[4..], q, words - 1);
      assert (p + q)[..4] == p[..4] && (p + q)[4..] == p[4..] + q;
    }
  }

  lemma BackwardsInParts<T>(p: seq<T>, q: seq<T>)
    ensures Backwards(p + q) == Backwards(q) + Backwards(p)
  {
  }

  lemma OneWordSwapped<T>(p: seq<T>)
    requires |p| == 4
    ensures WordsSwapped(p) == Backwards(p)
  {
    assert p[..4] == p && p[4..] == [];
  }

  function Decoded(s: string): seq<Byte> {
    Values(Pairs(s))
  }

  /** Word order reversed by the validator, byte order within words by the swap loop: together
      the bytes exactly backwards. */
  lemma {:induction false} WordsThenBytesReversed(h: string, words: nat)
    requires |h| == 8 * words
    ensures Parses(Pairs(WordsInReverse(h))) <==> Parses(Pairs(h))
    ensures WordsSwapped(Decoded(WordsInReverse(h))) == Backwards(Decoded(h))
    decreases words
  {
    if words > 0 {
      var w, t := h[..8], h[8..];
      assert h == w + t;
      WordsThenBytesReversed(t, words - 1);
      PairsInParts(w, t, 4);
      PairsInParts(WordsInReverse(t), w, 4 * words - 4);
      ParsesInParts(Pairs(w), Pairs(t));
      ParsesInParts(Pairs(WordsInReverse(t)), Pairs(w));
      ReversedInParts(w, t, words - 1);
    }
  }

  lemma ReversedInParts(w: string, t: string, words: nat)
    requires |w| == 8 && |t| == 8 * words
    requires WordsSwapped(Decoded(WordsInReverse(t))) == Backwards(Decoded(t))
    ensures WordsSwapped(Decoded(WordsInReverse(t) + w)) == Backwards(Decoded(w + t))
  {
    var r := WordsInReverse(t);
    PairsInParts(r, w, 4 * words);
    ValuesInParts(Pairs(r), Pairs(w));
    WordsSwappedInParts(Decoded(r), Decoded(w), words);
    OneWordSwapped(Decoded(w));
    PairsInParts(w, t, 4);
    ValuesInParts(Pairs(w), Pairs(t));
    BackwardsInParts(Decoded(w), Decoded(t));
  }

  /** Word g of the swapped bytes depends on characters 8g to 8g + 8 alone. */
  lemma SwappedBytesWord(s: string, g: nat)
    requires 8 * g + 8 <= |s|
    ensures Word(WordsSwapped(Decoded(s)), g) == Backwards(Decoded(s[8 * g..8 * g + 8]))
  {
    SwappedWord(Decoded(s), g);
    ValuesOfWord(s, g);
  }
}
