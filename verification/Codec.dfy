/**
 Integers and strings in register words (src/modbus_connection/encode.py and decode.py).

 A word is 16 bits. A value spans any number of words, most significant first unless
 the word order is little.
 */
module Codec {
  import opened Wrappers

  const WORD := 0x1_0000

  datatype WordOrder = Big | Little

  datatype CodecError = Overflow | BadWidth

  function Reversed<T>(s: seq<T>): (r: seq<T>)
    ensures |r| == |s| && forall i :: 0 <= i < |s| ==> r[i] == s[|s| - 1 - i]
  {
    seq(|s|, i requires 0 <= i < |s| => s[|s| - 1 - i])
  }

  function Ordered<T>(words: seq<T>, order: WordOrder): (r: seq<T>)
    ensures |r| == |words|
  {
    if order.Big? then words else Reversed(words)
  }

  lemma OrderedTwice<T>(words: seq<T>, order: WordOrder)
    ensures Ordered(Ordered(words, order), order) == words
  {
  }

  /** How many values `n` words hold. */
  function Values(n: nat): (v: int)
    ensures v > 0
  {
    if n == 0 then 1 else WORD * Values(n - 1)
  }

  // ----- packing and splitting -----

  /** The words as one unsigned integer, most significant first. */
  function Packed(words: seq<int>): (raw: int)
    ensures 0 <= raw
  {
    if words == [] then 0 else WORD * Packed(words[..|words| - 1]) + words[|words| - 1] % WORD
  }

  /** `combine_words`. */
  method CombineWords(words: seq<int>, order: WordOrder) returns (raw: int)
    ensures raw == Packed(Ordered(words, order))
  {
    var ordered := Ordered(words, order);
    raw := 0;
    for i := 0 to |ordered|
      invariant raw == Packed(ordered[..i])
    {
      assert ordered[..i + 1][..i] == ordered[..i];
      raw := WORD * raw + ordered[i] % WORD;
    }
    assert ordered[..|ordered|] == ordered;
  }

  /** The `count` low words of an integer, most significant first. */
  function Split(raw: int, count: nat): (words: seq<int>)
    ensures |words| == count
    ensures forall i {:trigger words[i]} :: 0 <= i < count ==> words[i] == raw / Values(count - 1 - i) % WORD
  {
    seq(count, i requires 0 <= i < count => raw / Values(count - 1 - i) % WORD)
  }

  /** `split_words`. */
  function SplitWords(raw: int, count: nat, order: WordOrder): seq<int> {
    Ordered(Split(raw, count), order)
  }

  lemma DivideTwice(raw: int, a: int, b: int)
    requires a > 0 && b > 0
    ensures a * b > 0 && raw / (a * b) == raw / a / b
  {
    var q, r := raw / a, raw % a;
    var q', r' := q / b, q % b;
    assert raw == a * q + r && q == b * q' + r';
    assert raw == (a * b) * q' + (a * r' + r) by { assert a * (b * q' + r') == (a * b) * q' + a * r'; }
    assert 0 <= a * r' + r < a * b by { Below(a, b, r', r); }
    Unique(raw, a * b, q', a * r' + r);
  }

  lemma Below(a: int, b: int, q: int, r: int)
    requires a > 0 && 0 <= q < b && 0 <= r < a
    ensures 0 <= a * q + r < a * b
  {
    assert a * (b - 1 - q) >= 0;
    assert a * (b - 1 - q) == a * b - a - a * q;
    assert a * q >= 0;
  }

  lemma Unique(x: int, m: int, q: int, r: int)
    requires m > 0 && x == m * q + r && 0 <= r < m
    ensures x / m == q && x % m == r
  {
    var q', r' := x / m, x % m;
    assert m * (q - q') == r' - r by { assert m * (q - q') == m * q - m * q'; }
    if q - q' >= 1 { Wide(m, q - q' - 1); }
    if q' - q >= 1 { Wide(m, q' - q - 1); Opposite(m, q - q'); }
  }

  lemma Opposite(m: int, d: int)
    ensures m * d == -(m * -d)
  {
  }

  lemma Wide(m: int, k: nat)
    requires m > 0
    ensures m * (k + 1) >= m
  {
  }

  /** The leading words of a split are the split of what is left above the last word. */
  lemma SplitFront(raw: int, count: nat)
    requires count > 0
    ensures Split(raw, count)[..count - 1] == Split(raw / WORD, count - 1)
    ensures Split(raw, count)[count - 1] == raw % WORD
  {
    forall i | 0 <= i < count - 1 ensures Split(raw, count)[i] == Split(raw / WORD, count - 1)[i] {
      DivideTwice(raw, WORD, Values(count - 2 - i));
    }
    assert Values(0) == 1;
  }

  lemma ModTwice(raw: int)
    ensures raw % WORD % WORD == raw % WORD
  {
  }

  lemma PackedLast(words: seq<int>, front: seq<int>, last: int)
    requires words != [] && words[..|words| - 1] == front && words[|words| - 1] == last
    ensures Packed(words) == WORD * Packed(front) + last % WORD
  {
  }

  /** Packing the `n` low words of an integer gives it back up to what `n` words cannot hold. */
  lemma {:induction false} PackedSplit(raw: int, n: nat)
    ensures Packed(Split(raw, n)) == raw % Values(n)
    decreases n
  {
    hide Packed, Split;
    if n == 0 {
      NoWords(raw);
    } else {
      SplitFront(raw, n);
      PackedSplit(raw / WORD, n - 1);
      PackedLast(Split(raw, n), Split(raw / WORD, n - 1), raw % WORD);
      ModTwice(raw);
      LowWords(raw, Values(n - 1));
    }
  }

  lemma NoWords(raw: int)
    ensures Packed(Split(raw, 0)) == raw % Values(0)
  {
  }

  lemma LowWords(raw: int, m: int)
    requires m > 0
    ensures WORD * (raw / WORD % m) + raw % WORD == raw % (WORD * m)
  {
    var q, r := raw / WORD, raw % WORD;
    var q', r' := q / m, q % m;
    assert raw == WORD * q + r && q == m * q' + r';
    assert raw == (WORD * m) * q' + (WORD * r' + r) by { assert WORD * (m * q' + r') == (WORD * m) * q' + WORD * r'; }
    Below(WORD, m, r', r);
    Unique(raw, WORD * m, q', WORD * r' + r);
  }

  predicate AreWords(words: seq<int>) {
    forall i :: 0 <= i < |words| ==> 0 <= words[i] < WORD
  }

  lemma {:induction false} PackedFits(words: seq<int>)
    ensures Packed(words) < Values(|words|)
  {
    if words != [] { PackedFits(words[..|words| - 1]); }
  }

  /** Splitting what words were packed into gives the words back. */
  lemma {:induction false} SplitPacked(words: seq<int>)
    requires AreWords(words)
    ensures Split(Packed(words), |words|) == words
    decreases |words|
  {
    if words != [] {
      var n := |words|;
      var front, last := words[..n - 1], words[n - 1];
      SplitPacked(front);
      SplitFront(Packed(words), n);
      Unique(Packed(words), WORD, Packed(front), last);
      assert Split(Packed(words), n) == Split(Packed(words), n)[..n - 1] + [last];
      assert words == front + [last];
    }
  }

  // ----- integers -----

  lemma EvenValues(n: nat)
    requires n > 0
    ensures Values(n) % 2 == 0 && Values(n) / 2 > 0
  {
    assert Values(n) == 2 * (0x8000 * Values(n - 1));
  }

  /** `encode_int`: a negative value is two's complement; no words, no integer. */
  function EncodeInt(value: int, count: nat, order: WordOrder): Result<seq<int>, CodecError> {
    if count == 0 then Err(BadWidth)
    else if !(-(Values(count) / 2) <= value < Values(count)) then Err(Overflow)
    else Ok(SplitWords(if value < 0 then value + Values(count) else value, count, order))
  }

  /** `_signed`: the upper half of the values are negative. */
  function Signed(raw: int, n: nat): int
    requires n > 0
  {
    if raw >= Values(n) / 2 then raw - Values(n) else raw
  }

  /** `decode_int`. */
  function DecodeInt(words: seq<int>, signed: bool, order: WordOrder): int
    requires signed ==> words != []
  {
    var raw := Packed(Ordered(words, order));
    if signed then Signed(raw, |words|) else raw
  }

  /** Exactly the values that `count` words can hold, signed or not, are accepted. */
  lemma EncodesExactly(value: int, count: nat, order: WordOrder)
    requires count > 0
    ensures EncodeInt(value, count, order).Ok? <==> -(Values(count) / 2) <= value < Values(count)
    ensures EncodeInt(value, count, order).Ok? ==>
      |EncodeInt(value, count, order).value| == count && AreWords(EncodeInt(value, count, order).value)
  {
  }

  /**
   Decoding an encoded integer gives it back exactly when the signedness matches: read as
   signed it must lie in the lower half, read as unsigned it must not be negative.
   */
  lemma IntRoundTrip(value: int, count: nat, order: WordOrder, signed: bool)
    requires EncodeInt(value, count, order).Ok?
    ensures DecodeInt(EncodeInt(value, count, order).value, signed, order) == value <==>
            if signed then value < Values(count) / 2 else value >= 0
  {
    var raw := if value < 0 then value + Values(count) else value;
    EvenValues(count);
    OrderedTwice(Split(raw, count), order);
    PackedSplit(raw, count);
    Small(raw, Values(count));
  }

  lemma Small(x: int, m: int)
    requires 0 <= x < m
    ensures x % m == x
  {
  }

  /** Whatever words hold, encoding their decode gives the same words, read signed or unsigned. */
  lemma WordsRoundTrip(words: seq<int>, signed: bool, order: WordOrder)
    requires words != [] && AreWords(words)
    ensures EncodeInt(DecodeInt(words, signed, order), |words|, order) == Ok(words)
  {
    var ordered := Ordered(words, order);
    EvenValues(|words|);
    PackedFits(ordered);
    SplitPacked(ordered);
    OrderedTwice(words, order);
  }

  // ----- which word is which digit -----

  /** The word that is the `k`-th digit from below: the last ones come first in big order. */
  function DigitAt(words: seq<int>, k: nat, order: WordOrder): int
    requires k < |words|
  {
    match order
    case Big => words[|words| - 1 - k]
    case Little => words[k]
  }

  lemma {:induction false} ValuesSplit(n: nat, k: nat)
    requires k < n
    ensures Values(n) == Values(k) * (WORD * Values(n - 1 - k))
    decreases n
  {
    if k + 1 < n {
      ValuesSplit(n - 1, k);
      assert Values(n) == WORD * (Values(k) * (WORD * Values(n - 2 - k)));
      assert WORD * (Values(k) * (WORD * Values(n - 2 - k))) == Values(k) * (WORD * (WORD * Values(n - 2 - k))) by {
        Regroup(WORD, Values(k), WORD * Values(n - 2 - k));
      }
    } else {
      assert Values(0) == 1;
    }
  }

  lemma Regroup(a: int, b: int, c: int)
    ensures a * (b * c) == b * (a * c)
  {
  }

  lemma AddMultiple(x: int, m: int, c: int)
    requires m > 0
    ensures (x + m * c) / m == x / m + c && (x + m * c) % m == x % m
  {
    Distributes(m, x / m, c);
    Unique(x + m * c, m, x / m + c, x % m);
  }

  lemma Distributes(a: int, b: int, c: int)
    ensures a * (b + c) == a * b + a * c
  {
  }

  /** Adding everything n words hold leaves every digit below as it is. */
  lemma DigitsWrap(raw: int, n: nat, k: nat)
    requires k < n
    ensures (raw + Values(n)) / Values(k) % WORD == raw / Values(k) % WORD
  {
    var high := Values(n - 1 - k);
    ValuesSplit(n, k);
    AddMultiple(raw, Values(k), WORD * high);
    AddMultiple(raw / Values(k), WORD, high);
  }

  lemma PackedDigit(ordered: seq<int>, k: nat)
    requires AreWords(ordered) && k < |ordered|
    ensures Packed(ordered) / Values(k) % WORD == ordered[|ordered| - 1 - k]
  {
    hide Packed, Split, Values;
    var n := |ordered|;
    SplitPacked(ordered);
    assert Split(Packed(ordered), n)[n - 1 - k] == Packed(ordered) / Values(n - 1 - (n - 1 - k)) % WORD;
  }

  lemma DecodedIs(words: seq<int>, signed: bool, order: WordOrder)
    requires words != []
    ensures var raw, v := Packed(Ordered(words, order)), DecodeInt(words, signed, order);
      v == raw || v + Values(|words|) == raw
  {
  }

  /** Every word is one digit of the decode, in the place its word order gives it; a negative one in two's complement. */
  lemma DecodedDigits(words: seq<int>, signed: bool, order: WordOrder, k: nat)
    requires AreWords(words) && k < |words|
    ensures DecodeInt(words, signed, order) / Values(k) % WORD == DigitAt(words, k, order)
  {
    var ordered := Ordered(words, order);
    assert AreWords(ordered) && ordered[|words| - 1 - k] == DigitAt(words, k, order);
    DecodedIs(words, signed, order);
    hide Packed, Ordered, DigitAt, Values, DecodeInt;
    PackedDigit(ordered, k);
    DigitsWrap(DecodeInt(words, signed, order), |words|, k);
  }

  /** And the same of every word an integer is encoded in. */
  lemma EncodedDigits(value: int, count: nat, order: WordOrder, k: nat)
    requires EncodeInt(value, count, order).Ok? && k < count
    ensures DigitAt(EncodeInt(value, count, order).value, k, order) == value / Values(k) % WORD
  {
    var raw := if value < 0 then value + Values(count) else value;
    assert DigitAt(EncodeInt(value, count, order).value, k, order) == Split(raw, count)[count - 1 - k] by { hide Split, Values; }
    hide Values, EncodeInt, DigitAt, Split;
    assert Split(raw, count)[count - 1 - k] == raw / Values(count - 1 - (count - 1 - k)) % WORD;
    DigitsWrap(value, count, k);
  }

  // ----- strings -----

  /** The characters ASCII has; the others are dropped. */
  function Ascii(s: string): (r: string)
    ensures |r| <= |s|
    ensures forall i :: 0 <= i < |r| ==> r[i] < 128 as char
  {
    if s == [] then []
    else
      var rest, last := Ascii(s[..|s| - 1]), s[|s| - 1];
      if last < 128 as char then rest + [last] else rest
  }

  function Truncated(s: string, n: nat): (r: string)
    ensures |r| <= n && r <= s
    ensures |r| < n ==> r == s
  {
    if |s| <= n then s else s[..n]
  }

  /** The character at a byte position, or the padding beyond. */
  function ByteAt(s: string, i: nat): (b: int)
    ensures 0 <= b
  {
    if i < |s| then s[i] as int else 0
  }

  /** `encode_string`: two characters to a word, padded with NULs. */
  function EncodeString(s: string, length: nat): (words: seq<int>)
    ensures |words| == length
  {
    var raw := Truncated(Ascii(s), 2 * length);
    seq(length, i requires 0 <= i < length => 0x100 * ByteAt(raw, 2 * i) + ByteAt(raw, 2 * i + 1))
  }

  /** The bytes of words, as characters. */
  function Bytes(words: seq<int>): (r: string)
    ensures |r| == 2 * |words|
  {
    seq(2 * |words|, i requires 0 <= i < 2 * |words| =>
      (if i % 2 == 0 then words[i / 2] % WORD / 0x100 else words[i / 2] % 0x100) as char)
  }

  function Stripped(s: string): (r: string)
    ensures |r| <= |s| && r <= s
    ensures r != [] ==> r[|r| - 1] != 0 as char
    ensures forall i :: |r| <= i < |s| ==> s[i] == 0 as char
  {
    if s != [] && s[|s| - 1] == 0 as char then Stripped(s[..|s| - 1]) else s
  }

  /** `decode_string`. */
  function DecodeString(words: seq<int>): string {
    Stripped(Ascii(Bytes(words)))
  }

  lemma {:induction false} AsciiIs(s: string)
    requires forall i :: 0 <= i < |s| ==> s[i] < 128 as char
    ensures Ascii(s) == s
    decreases |s|
  {
    if s != [] { AsciiIs(s[..|s| - 1]); }
  }

  /** Dropping goes character by character: what comes before or after makes no difference. */
  lemma {:induction false} AsciiConcat(s: string, t: string)
    ensures Ascii(s + t) == Ascii(s) + Ascii(t)
    decreases |t|
  {
    if t == [] {
      assert s + t == s;
    } else {
      var n := |t| - 1;
      assert (s + t)[..|s + t| - 1] == s + t[..n];
      AsciiConcat(s, t[..n]);
    }
  }

  lemma {:induction false} AsciiShrinks(s: string)
    requires |Ascii(s)| == |s|
    ensures Ascii(s) == s
    decreases |s|
  {
    if s != [] {
      assert |Ascii(s[..|s| - 1])| <= |s| - 1;
      AsciiShrinks(s[..|s| - 1]);
    }
  }

  lemma StrippedIs(padded: string, s: string)
    requires |s| <= |padded| && padded[..|s|] == s && forall i :: |s| <= i < |padded| ==> padded[i] == 0 as char
    ensures Stripped(padded) == Stripped(s)
    decreases |padded|
  {
    if |padded| > |s| {
      StrippedIs(padded[..|padded| - 1], s);
    } else {
      assert padded == s;
    }
  }

  lemma HalfOf(i: nat)
    ensures 2 * (i / 2) + i % 2 == i
  {
  }

  lemma TwoBytes(hi: int, lo: int)
    requires 0 <= hi < 0x100 && 0 <= lo < 0x100
    ensures (0x100 * hi + lo) % WORD / 0x100 == hi && (0x100 * hi + lo) % 0x100 == lo
  {
  }

  /** Each byte of an encoded string is a character of it, or padding. */
  lemma ByteComesBack(s: string, length: nat, i: nat)
    requires i < 2 * length
    ensures var raw := Truncated(Ascii(s), 2 * length);
      ByteAt(raw, i) < 128 && Bytes(EncodeString(s, length))[i] == ByteAt(raw, i) as char
  {
    hide Ascii, Truncated;
    var raw := Truncated(Ascii(s), 2 * length);
    TruncatedAscii(s, 2 * length);
    HalfOf(i);
    TwoBytes(ByteAt(raw, 2 * (i / 2)), ByteAt(raw, 2 * (i / 2) + 1));
    assert EncodeString(s, length)[i / 2] == 0x100 * ByteAt(raw, 2 * (i / 2)) + ByteAt(raw, 2 * (i / 2) + 1);
  }

  /** The high byte of a word is the earlier character. */
  lemma CharactersInOrder(s: string, length: nat, i: nat)
    requires i < length
    ensures var kept := Ascii(s);
      && EncodeString(s, length)[i] / 0x100 == ByteAt(kept, 2 * i)
      && EncodeString(s, length)[i] % 0x100 == ByteAt(kept, 2 * i + 1)
  {
    var kept, raw := Ascii(s), Truncated(Ascii(s), 2 * length);
    TruncatedAscii(s, 2 * length);
    assert ByteAt(raw, 2 * i) == ByteAt(kept, 2 * i) && ByteAt(raw, 2 * i + 1) == ByteAt(kept, 2 * i + 1);
    TwoBytes(ByteAt(raw, 2 * i), ByteAt(raw, 2 * i + 1));
  }

  lemma TruncatedAscii(s: string, n: nat)
    ensures forall i :: 0 <= i < |Truncated(Ascii(s), n)| ==> Truncated(Ascii(s), n)[i] < 128 as char
  {
  }

  /** What comes back is what fits of the string's ASCII characters, without trailing NULs. */
  lemma StringComesBack(s: string, length: nat)
    ensures DecodeString(EncodeString(s, length)) == Stripped(Truncated(Ascii(s), 2 * length))
  {
    hide Ascii, Truncated, EncodeString, Bytes, Stripped;
    var raw, bytes := Truncated(Ascii(s), 2 * length), Bytes(EncodeString(s, length));
    forall i | 0 <= i < 2 * length ensures bytes[i] == ByteAt(raw, i) as char && bytes[i] < 128 as char {
      ByteComesBack(s, length, i);
    }
    AsciiIs(bytes);
    StrippedIs(bytes, raw);
  }

  /** A string survives encoding exactly when it is ASCII, fits, and does not end in a NUL. */
  lemma StringRoundTrip(s: string, length: nat)
    ensures DecodeString(EncodeString(s, length)) == s <==>
            (forall i :: 0 <= i < |s| ==> s[i] < 128 as char) && |s| <= 2 * length && (s != [] ==> s[|s| - 1] != 0 as char)
  {
    StringComesBack(s, length);
    if (forall i :: 0 <= i < |s| ==> s[i] < 128 as char) && |s| <= 2 * length && (s != [] ==> s[|s| - 1] != 0 as char) {
      AsciiIs(s);
    }
    if DecodeString(EncodeString(s, length)) == s {
      AsciiShrinks(s);
    }
  }
}
