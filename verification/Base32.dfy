/** RFC 4648 section 6 base32 without padding, as 32-bit shift loops compute it. */
module Base32 {
  import opened Bits

  type Byte = n: nat | n < 256

  const BASE32_ALPHABET := "ABCDEFGHIJKLMNOPQRSTUVWXYZ234567"

  function Symbol(i: nat): char
    requires i < 32
  {
    if i < 26 then 'A' + i as char else '2' + (i - 26) as char
  }

  predicate IsSymbol(c: char) {
    'A' <= c <= 'Z' || '2' <= c <= '7'
  }

  /** The place of a character in the alphabet, or -1. */
  function IndexOf(c: char): (i: int)
    ensures i == -1 <==> !IsSymbol(c)
    ensures i != -1 ==> 0 <= i < 32 && Symbol(i) == c
  {
    if 'A' <= c <= 'Z' then c as int - 'A' as int
    else if '2' <= c <= '7' then 26 + (c as int - '2' as int)
    else -1
  }

  lemma SymbolsAreTheAlphabet(i: nat)
    requires i < 32
    ensures BASE32_ALPHABET[i] == Symbol(i) && IndexOf(Symbol(i)) == i
  {
  }

  /** The octets of a message as one string of bits. */
  function OctetBits(b: seq<Byte>): (s: seq<bool>)
    ensures |s| == 8 * |b|
  {
    if b == [] then [] else OctetBits(b[..|b| - 1]) + BitsOf(b[|b| - 1], 8)
  }

  /** The bits spelled by the alphabet characters of a text, five each; other characters spell none. */
  function SymbolBits(text: string): seq<bool> {
    if text == "" then []
    else
      var last := text[|text| - 1];
      SymbolBits(text[..|text| - 1]) + if IsSymbol(last) then BitsOf(IndexOf(last), 5) else []
  }

  /** RFC 4648: five-bit groups from the left, each one character. */
  function Groups(bits: seq<bool>): (text: string)
    ensures 5 * |text| <= |bits| < 5 * |text| + 5
    decreases |bits|
  {
    if |bits| < 5 then "" else [Symbol(GroupWorth(bits[..5]))] + Groups(bits[5..])
  }

  function GroupWorth(group: seq<bool>): (i: nat)
    requires |group| == 5
    ensures i == ValueOf(group) && i < 32 && BitsOf(i, 5) == group
  {
    ValueOfBits(group);
    assert Pow2(5) == 32;
    ValueOf(group)
  }

  /** How many zero bits complete the last group. */
  function Fill(bits: nat): (n: nat)
    ensures n < 5 && bits + n == 5 * ((bits + 4) / 5)
  {
    5 * ((bits + 4) / 5) - bits
  }

  lemma FillIs(bits: nat, groups: nat, n: nat)
    requires bits + n == 5 * groups && n < 5
    ensures Fill(bits) == n
  {
  }

  /** The encoding of RFC 4648 section 6, its padding characters left out. */
  function Encoded(b: seq<Byte>): string {
    Groups(OctetBits(b) + Zeros(Fill(8 * |b|)))
  }

  /** Whole octets from the left; what is left over is dropped. */
  function Octets(bits: seq<bool>): (b: seq<Byte>)
    ensures 8 * |b| <= |bits| < 8 * |b| + 8
    decreases |bits|
  {
    if |bits| < 8 then [] else [OctetWorth(bits[..8])] + Octets(bits[8..])
  }

  function OctetWorth(octet: seq<bool>): (b: Byte)
    requires |octet| == 8
    ensures b == ValueOf(octet) && BitsOf(b, 8) == octet
  {
    ValueOfBits(octet);
    assert Pow2(8) == 256;
    ValueOf(octet)
  }

  function Upper(c: char): char {
    if 'a' <= c <= 'z' then (c as int - 32) as char else c
  }

  function UpperAll(s: string): (r: string)
    ensures |r| == |s| && forall i | 0 <= i < |s| :: r[i] == Upper(s[i])
  {
    seq(|s|, i requires 0 <= i < |s| => Upper(s[i]))
  }

  function StripPadding(s: string): string {
    if s != "" && s[|s| - 1] == '=' then StripPadding(s[..|s| - 1]) else s
  }

  function Decoded(secret: string): seq<Byte> {
    Octets(SymbolBits(UpperAll(StripPadding(secret))))
  }

  predicate AllSymbols(text: string) {
    forall c | c in text :: IsSymbol(c)
  }

  lemma {:induction false} SymbolBitsAppend(text: string, i: nat)
    requires i < 32
    ensures SymbolBits(text + [Symbol(i)]) == SymbolBits(text) + BitsOf(i, 5)
    ensures AllSymbols(text) ==> AllSymbols(text + [Symbol(i)])
  {
    SymbolsAreTheAlphabet(i);
    assert (text + [Symbol(i)])[..|text|] == text;
  }

  lemma {:induction false} AppendBoth(a: seq<bool>, b: seq<bool>, whole: seq<bool>, c: seq<bool>)
    requires a + b == whole
    ensures a + (b + c) == whole + c
  {
  }

  lemma {:induction false} MoveAcross(a: seq<bool>, first: seq<bool>, b: seq<bool>, whole: seq<bool>)
    requires a + (first + b) == whole
    ensures (a + first) + b == whole
  {
  }

  lemma {:induction false} SymbolBitsJoin(s: string, t: string)
    ensures SymbolBits(s + t) == SymbolBits(s) + SymbolBits(t)
  {
    if t == "" {
      assert s + t == s;
    } else {
      var front := t[..|t| - 1];
      SymbolBitsJoin(s, front);
      assert (s + t)[..|s + t| - 1] == s + front;
      AppendBoth(SymbolBits(s), SymbolBits(front), SymbolBits(s + front), SymbolBits(t)[|SymbolBits(front)|..]);
    }
  }

  lemma {:induction false} SymbolBitsStart(i: nat, t: string)
    requires i < 32
    ensures SymbolBits([Symbol(i)] + t) == BitsOf(i, 5) + SymbolBits(t)
  {
    SymbolBitsAppend("", i);
    assert "" + [Symbol(i)] == [Symbol(i)];
    SymbolBitsJoin([Symbol(i)], t);
  }

  lemma GroupValue(i: nat)
    requires i < 32
    ensures GroupWorth(BitsOf(i, 5)) == i
  {
    assert Pow2(5) == 32;
    BitsOfValue(i, 5);
  }

  lemma GroupsStart(group: seq<bool>, bits: seq<bool>)
    requires |group| == 5
    ensures Groups(group + bits) == [Symbol(GroupWorth(group))] + Groups(bits)
  {
    assert (group + bits)[..5] == group && (group + bits)[5..] == bits;
  }

  lemma {:induction false} AllSymbolsTail(text: string)
    requires text != ""
    ensures AllSymbols(text) <==> IsSymbol(text[0]) && AllSymbols(text[1..])
  {
    assert text == [text[0]] + text[1..];
  }

  /** Five-bit groups are the only text of alphabet characters that spells those bits. */
  lemma {:induction false} GroupsUnique(text: string)
    requires AllSymbols(text)
    ensures |SymbolBits(text)| == 5 * |text| && Groups(SymbolBits(text)) == text
  {
    if text != "" {
      AllSymbolsTail(text);
      GroupsUnique(text[1..]);
      var i := IndexOf(text[0]);
      SymbolBitsStart(i, text[1..]);
      GroupsStart(BitsOf(i, 5), SymbolBits(text[1..]));
      GroupValue(i);
      assert text == [text[0]] + text[1..];
    }
  }

  lemma {:induction false} GroupsSpellBits(bits: seq<bool>, groups: nat)
    requires |bits| == 5 * groups
    ensures AllSymbols(Groups(bits)) && SymbolBits(Groups(bits)) == bits
    decreases groups
  {
    if groups > 0 {
      var i := GroupWorth(bits[..5]);
      GroupsSpellBits(bits[5..], groups - 1);
      SymbolsAreTheAlphabet(i);
      SymbolBitsStart(i, Groups(bits[5..]));
      AllSymbolsTail(Groups(bits));
    }
  }

  lemma OctetValue(octet: Byte)
    ensures OctetWorth(BitsOf(octet, 8)) == octet
  {
    assert Pow2(8) == 256;
    BitsOfValue(octet, 8);
  }

  lemma OctetsStart(octet: seq<bool>, bits: seq<bool>)
    requires |octet| == 8
    ensures Octets(octet + bits) == [OctetWorth(octet)] + Octets(bits)
  {
    assert (octet + bits)[..8] == octet && (octet + bits)[8..] == bits;
  }

  lemma OctetReadsBack(octet: Byte, bits: seq<bool>)
    ensures Octets(BitsOf(octet, 8) + bits) == [octet] + Octets(bits)
  {
    OctetsStart(BitsOf(octet, 8), bits);
    OctetValue(octet);
  }

  lemma {:induction false} OctetBitsAppend(b: seq<Byte>, octet: Byte)
    ensures OctetBits(b + [octet]) == OctetBits(b) + BitsOf(octet, 8)
  {
    assert (b + [octet])[..|b|] == b;
  }

  lemma {:induction false} OctetBitsStart(octet: Byte, b: seq<Byte>)
    ensures OctetBits([octet] + b) == BitsOf(octet, 8) + OctetBits(b)
  {
    if b == [] {
      OctetBitsAppend([], octet);
    } else {
      var front := b[..|b| - 1];
      OctetBitsStart(octet, front);
      var last := b[|b| - 1];
      OctetBitsAppend([octet] + front, last);
      OctetBitsAppend(front, last);
      assert b == front + [last] && [octet] + b == ([octet] + front) + [last];
      AppendBoth(BitsOf(octet, 8), OctetBits(front), OctetBits([octet] + front), BitsOf(last, 8));
    }
  }

  lemma {:induction false} OctetsOfOctetBits(b: seq<Byte>, rest: seq<bool>)
    requires |rest| < 8
    ensures Octets(OctetBits(b) + rest) == b
  {
    if b != [] {
      assert b == [b[0]] + b[1..];
      OctetBitsStart(b[0], b[1..]);
      OctetsOfOctetBits(b[1..], rest);
      OctetReadsBack(b[0], OctetBits(b[1..]) + rest);
      AppendBoth(BitsOf(b[0], 8), OctetBits(b[1..]), OctetBits(b), rest);
    }
  }

  /** What a loop has written and what its accumulator still holds, against what it has read. */
  ghost predicate Encodes(output: string, value: nat, bits: nat, read: seq<Byte>) {
    AllSymbols(output) && SymbolBits(output) + BitsOf(value, bits) == OctetBits(read)
  }

  lemma {:induction false} ReadOctet(output: string, value: nat, bits: nat, read: seq<Byte>, octet: Byte)
    requires Encodes(output, value, bits, read) && bits < 5
    ensures Encodes(output, Or(Shl(value, 8), octet), bits + 8, read + [octet])
  {
    assert Pow2(8) == 256;
    ShiftIn(value, bits, octet, 8);
    OctetBitsAppend(read, octet);
    AppendBoth(SymbolBits(output), BitsOf(value, bits), OctetBits(read), BitsOf(octet, 8));
  }

  lemma {:induction false} WriteGroup(output: string, value: nat, bits: nat, read: seq<Byte>)
    requires Encodes(output, value, bits, read) && bits >= 5
    ensures var index := And(Shr(value, bits - 5), 31);
            && index < 32
            && Encodes(output + [BASE32_ALPHABET[index]], value, bits - 5, read)
  {
    assert Pow2(5) == 32;
    ShiftOut(value, bits, 5);
    var index := And(Shr(value, bits - 5), 31);
    SymbolsAreTheAlphabet(index);
    SymbolBitsAppend(output, index);
    MoveAcross(SymbolBits(output), BitsOf(index, 5), BitsOf(value, bits - 5), OctetBits(read));
  }

  /** The last characters are completed with zero bits on the right. */
  lemma WriteLastGroup(output: string, value: nat, bits: nat, read: seq<Byte>)
    requires Encodes(output, value, bits, read) && 0 < bits < 5
    ensures var index := And(Shl(value, 5 - bits), 31);
            && index < 32
            && output + [BASE32_ALPHABET[index]] == Encoded(read)
  {
    var index := And(Shl(value, 5 - bits), 31);
    LastGroup(value, bits);
    SymbolsAreTheAlphabet(index);
    SymbolBitsAppend(output, index);
    AppendBoth(SymbolBits(output), BitsOf(value, bits), OctetBits(read), Zeros(5 - bits));
    CompleteGroups(output + [Symbol(index)], read, 5 - bits);
  }

  /** Characters that spell the message and under five zero bits are its encoding. */
  lemma {:induction false} CompleteGroups(text: string, read: seq<Byte>, n: nat)
    requires AllSymbols(text) && n < 5 && SymbolBits(text) == OctetBits(read) + Zeros(n)
    ensures text == Encoded(read)
  {
    GroupsUnique(text);
    FillIs(8 * |read|, |text|, n);
  }

  lemma NothingRead()
    ensures Encodes("", 0, 0, []) && Decodes([], 0, 0, "")
  {
  }

  lemma NothingPending(output: string, value: nat, read: seq<Byte>)
    requires Encodes(output, value, 0, read)
    ensures output == Encoded(read)
  {
    assert BitsOf(value, 0) == Zeros(0);
    CompleteGroups(output, read, 0);
  }

  /** The inner loop: every whole group of the pending bits, as a character. */
  method WriteGroups(text: string, value: nat, pending: nat, ghost read: seq<Byte>) returns (output: string, bits: nat)
    requires Encodes(text, value, pending, read)
    ensures bits < 5 && Encodes(output, value, bits, read)
  {
    output, bits := text, pending;
    while bits >= 5
      invariant Encodes(output, value, bits, read)
    {
      var index := And(Shr(value, bits - 5), 31);
      WriteGroup(output, value, bits, read);
      output := output + [BASE32_ALPHABET[index]];
      bits := bits - 5;
    }
  }

  /** The encoder's loop: a 32-bit accumulator whose stale high bits are never masked off. */
  method Base32Encode(buffer: seq<Byte>) returns (output: string)
    ensures output == Encoded(buffer)
  {
    var bits: nat, value: nat := 0, 0;
    output := "";
    NothingRead();
    assert buffer[..0] == [];
    for i := 0 to |buffer|
      invariant bits < 5 && Encodes(output, value, bits, buffer[..i])
    {
      ghost var read := buffer[..i + 1];
      assert read == buffer[..i] + [buffer[i]];
      ReadOctet(output, value, bits, buffer[..i], buffer[i]);
      value := Or(Shl(value, 8), buffer[i]);
      output, bits := WriteGroups(output, value, bits + 8, read);
    }
    assert buffer[..|buffer|] == buffer;
    if bits > 0 {
      WriteLastGroup(output, value, bits, buffer);
      output := output + [BASE32_ALPHABET[And(Shl(value, 5 - bits), 31)]];
    } else {
      NothingPending(output, value, buffer);
    }
  }

  lemma LastGroup(value: nat, bits: nat)
    requires 0 < bits < 5
    ensures And(Shl(value, 5 - bits), 31) < 32
    ensures BitsOf(And(Shl(value, 5 - bits), 31), 5) == BitsOf(value, bits) + Zeros(5 - bits)
  {
    var k := 5 - bits;
    var shifted := Shl(value, k);
    ShiftIn(value, bits, 0, k);
    assert Or(shifted, 0) == shifted;
    ShiftOut(shifted, 5, 5);
    assert Pow2(5) == 32 && Shr(shifted, 0) == shifted;
    assert BitsOf(shifted, 0) == [];
    ZeroBits(k);
  }

  ghost predicate Decodes(bytes: seq<Byte>, value: nat, bits: nat, read: string) {
    OctetBits(bytes) + BitsOf(value, bits) == SymbolBits(read)
  }

  lemma {:induction false} ReadSymbol(bytes: seq<Byte>, value: nat, bits: nat, read: string, c: char)
    requires Decodes(bytes, value, bits, read) && bits < 8
    ensures !IsSymbol(c) ==> Decodes(bytes, value, bits, read + [c])
    ensures IsSymbol(c) ==> Decodes(bytes, Or(Shl(value, 5), IndexOf(c)), bits + 5, read + [c])
  {
    assert (read + [c])[..|read|] == read;
    if IsSymbol(c) {
      assert Pow2(5) == 32;
      ShiftIn(value, bits, IndexOf(c), 5);
      AppendBoth(OctetBits(bytes), BitsOf(value, bits), SymbolBits(read), BitsOf(IndexOf(c), 5));
    }
  }

  lemma {:induction false} WriteOctet(bytes: seq<Byte>, value: nat, bits: nat, read: string)
    requires Decodes(bytes, value, bits, read) && bits >= 8
    ensures var octet := And(Shr(value, bits - 8), 0xff);
            octet < 256 && Decodes(bytes + [octet], value, bits - 8, read)
  {
    assert Pow2(8) == 256;
    ShiftOut(value, bits, 8);
    var octet := And(Shr(value, bits - 8), 0xff);
    OctetBitsAppend(bytes, octet);
    MoveAcross(OctetBits(bytes), BitsOf(octet, 8), BitsOf(value, bits - 8), SymbolBits(read));
  }

  /** The decoder's loop: the same accumulator, run the other way. */
  method Base32Decode(secret: string) returns (bytes: seq<Byte>)
    ensures bytes == Decoded(secret)
  {
    var text := UpperAll(StripPadding(secret));
    var bits: nat, value: nat := 0, 0;
    bytes := [];
    NothingRead();
    assert text[..0] == "";
    for i := 0 to |text|
      invariant bits < 8 && Decodes(bytes, value, bits, text[..i])
    {
      ghost var read := text[..i + 1];
      assert read == text[..i] + [text[i]];
      ReadSymbol(bytes, value, bits, text[..i], text[i]);
      var index := IndexOf(text[i]);
      if index == -1 {
        continue;
      }
      value := Or(Shl(value, 5), index);
      bits := bits + 5;
      if bits >= 8 {
        WriteOctet(bytes, value, bits, read);
        bytes := bytes + [And(Shr(value, bits - 8), 0xff)];
        bits := bits - 8;
      }
    }
    assert text[..|text|] == text;
    OctetsOfOctetBits(bytes, BitsOf(value, bits));
  }

  /** The encoding is all alphabet characters, and spells the message followed by under five zero bits. */
  lemma {:induction false} EncodingSpellsTheMessage(b: seq<Byte>)
    ensures AllSymbols(Encoded(b))
    ensures SymbolBits(Encoded(b)) == OctetBits(b) + Zeros(Fill(8 * |b|))
  {
    var n := Fill(8 * |b|);
    GroupsSpellBits(OctetBits(b) + Zeros(n), (8 * |b| + 4) / 5);
  }

  /** It is as long as it has to be, and no padding makes it longer. */
  lemma {:induction false} EncodingLength(b: seq<Byte>)
    ensures |Encoded(b)| == (8 * |b| + 4) / 5
  {
    assert 5 * |Encoded(b)| <= 8 * |b| + Fill(8 * |b|) < 5 * |Encoded(b)| + 5;
  }

  predicate EndsInPadding(s: string) {
    s != "" && s[|s| - 1] == '='
  }

  lemma {:induction false} UpperOfSymbols(s: string)
    requires AllSymbols(s)
    ensures StripPadding(s) == s && UpperAll(s) == s
  {
    if s != "" {
      assert s[|s| - 1] in s;
    }
    forall i | 0 <= i < |s| ensures Upper(s[i]) == s[i] {
      assert s[i] in s;
    }
  }

  /** The round trip, for every byte sequence. */
  lemma {:induction false} DecodeOfEncode(b: seq<Byte>)
    ensures Decoded(Encoded(b)) == b
  {
    EncodingSpellsTheMessage(b);
    UpperOfSymbols(Encoded(b));
    OctetsOfOctetBits(b, Zeros(Fill(8 * |b|)));
  }

  /** The characters that count, in the alphabet's own case. */
  function Significant(s: string): string {
    if s == "" then ""
    else
      var last := Upper(s[|s| - 1]);
      Significant(s[..|s| - 1]) + if IsSymbol(last) then [last] else []
  }

  lemma {:induction false} SignificantSpells(s: string)
    ensures SymbolBits(UpperAll(s)) == SymbolBits(Significant(s))
  {
    if s != "" {
      var front := s[..|s| - 1];
      SignificantSpells(front);
      assert UpperAll(s)[..|s| - 1] == UpperAll(front);
      var last := Upper(s[|s| - 1]);
      assert (Significant(front) + [last])[..|Significant(front)|] == Significant(front);
      assert UpperAll(s)[|s| - 1] == last;
      if IsSymbol(last) {
        assert SymbolBits(Significant(s)) == SymbolBits(Significant(front)) + BitsOf(IndexOf(last), 5);
      } else {
        assert Significant(s) == Significant(front);
      }
    }
  }

  lemma {:induction false} PaddingIsInsignificant(s: string)
    ensures Significant(StripPadding(s)) == Significant(s)
  {
    if EndsInPadding(s) {
      PaddingIsInsignificant(s[..|s| - 1]);
    }
  }

  lemma {:induction false} SignificantJoins(s: string, t: string)
    ensures Significant(s + t) == Significant(s) + Significant(t)
  {
    if t == "" {
      assert s + t == s;
    } else {
      SignificantJoins(s, t[..|t| - 1]);
      assert (s + t)[..|s + t| - 1] == s + t[..|t| - 1];
    }
  }

  /**
   * Decoding depends on nothing but the significant characters: letter case,
   * padding and any separators, wherever they stand, make no difference.
   */
  lemma DecodingIgnoresDecoration(s: string, t: string)
    requires Significant(s) == Significant(t)
    ensures Decoded(s) == Decoded(t)
  {
    PaddingIsInsignificant(s);
    PaddingIsInsignificant(t);
    SignificantSpells(StripPadding(s));
    SignificantSpells(StripPadding(t));
  }

  /** In particular, pasting separators anywhere and changing case anywhere are harmless. */
  lemma SeparatorsAndCaseAreHarmless(s: string, t: string, junk: string)
    requires forall c | c in junk :: !('A' <= c <= 'Z' || 'a' <= c <= 'z' || '2' <= c <= '7')
    ensures Decoded(s + junk + t) == Decoded(s + t)
    ensures Decoded(UpperAll(s)) == Decoded(s)
  {
    SignificantJoins(s + junk, t);
    SignificantJoins(s, junk);
    SignificantJoins(s, t);
    JunkIsInsignificant(junk);
    DecodingIgnoresDecoration(s + junk + t, s + t);
    UpperIsInsignificant(s);
    DecodingIgnoresDecoration(UpperAll(s), s);
  }

  lemma {:induction false} JunkIsInsignificant(junk: string)
    requires forall c | c in junk :: !IsSymbol(Upper(c))
    ensures Significant(junk) == ""
  {
    if junk != "" {
      JunkIsInsignificant(junk[..|junk| - 1]);
    }
  }

  lemma {:induction false} UpperIsInsignificant(s: string)
    ensures Significant(UpperAll(s)) == Significant(s)
  {
    if s != "" {
      UpperIsInsignificant(s[..|s| - 1]);
      assert UpperAll(s)[..|s| - 1] == UpperAll(s[..|s| - 1]);
      assert Upper(Upper(s[|s| - 1])) == Upper(s[|s| - 1]);
    }
  }

  /** The same text up to the case of its letters. */
  predicate SameButForCase(s: string, t: string) {
    && |s| == |t|
    && forall i | 0 <= i < |s| ::
         || s[i] == t[i]
         || ('A' <= t[i] <= 'Z' && s[i] as int == t[i] as int + 32)
         || ('A' <= s[i] <= 'Z' && t[i] as int == s[i] as int + 32)
  }

  lemma {:induction false} CaseIsInsignificant(s: string, t: string)
    requires SameButForCase(s, t)
    ensures Significant(s) == Significant(t)
  {
    if s != "" {
      var last := |s| - 1;
      CaseIsInsignificant(s[..last], t[..last]);
      assert Upper(s[last]) == Upper(t[last]);
    }
  }

  /** An encoding typed in small letters, or in any mixture, decodes to the message all the same. */
  lemma {:induction false} AnyCaseDecodes(b: seq<Byte>, typed: string)
    requires SameButForCase(typed, Encoded(b))
    ensures Decoded(typed) == b
  {
    CaseIsInsignificant(typed, Encoded(b));
    DecodingIgnoresDecoration(typed, Encoded(b));
    DecodeOfEncode(b);
  }

  /** A text is some encoding exactly when it is alphabet characters whose leftover bits are under five zeros. */
  predicate Canonical(s: string) {
    && AllSymbols(s)
    && var bits := SymbolBits(s);
       var whole := 8 * |Octets(bits)|;
       |bits| - whole < 5 && forall i | whole <= i < |bits| :: !bits[i]
  }

  lemma {:induction false} OctetBitsOfOctets(bits: seq<bool>)
    ensures OctetBits(Octets(bits)) == bits[..8 * |Octets(bits)|]
    decreases |bits|
  {
    if |bits| >= 8 {
      OctetBitsOfOctets(bits[8..]);
      OctetBitsStart(OctetWorth(bits[..8]), Octets(bits[8..]));
    }
  }

  lemma {:induction false} EncodingIsCanonical(b: seq<Byte>)
    ensures Canonical(Encoded(b))
  {
    EncodingSpellsTheMessage(b);
    OctetsOfOctetBits(b, Zeros(Fill(8 * |b|)));
  }

  lemma {:induction false} CanonicalReadsBack(s: string)
    requires Canonical(s)
    ensures Encoded(Decoded(s)) == s
  {
    UpperOfSymbols(s);
    GroupsUnique(s);
    var bits := SymbolBits(s);
    var whole := 8 * |Octets(bits)|;
    OctetBitsOfOctets(bits);
    FillIs(whole, |s|, |bits| - whole);
    assert bits == bits[..whole] + Zeros(|bits| - whole);
  }

  lemma {:induction false} EncodeOfDecode(s: string)
    ensures Encoded(Decoded(s)) == s <==> Canonical(s)
  {
    if Canonical(s) {
      CanonicalReadsBack(s);
    }
    EncodingIsCanonical(Decoded(s));
  }
}
