/** HOTP (RFC 4226) and TOTP (RFC 6238) over an HMAC that is any function to twenty bytes. */
module Totp {
  import opened Prelude
  import opened Bits
  import opened Base32
  import opened Decimal

  const DIGITS := 6
  const PERIOD_MS := 30_000
  const DRIFT_STEPS := 1

  type Digest = d: seq<Byte> | |d| == 20 witness seq(20, _ => 0)

  /** HMAC-SHA-1: key, then message. */
  type Hmac = (seq<Byte>, seq<Byte>) -> Digest

  /** The instants a JavaScript `Date` can hold, in milliseconds. */
  type Moment = ms: int | -8_640_000_000_000_000 <= ms <= 8_640_000_000_000_000

  /** Writing a negative number as an unsigned 64-bit counter throws. */
  datatype Failure = RangeError

  function Step(at: Moment): int {
    at / PERIOD_MS
  }

  /** A counter as eight bytes, most significant first. */
  function CounterBytes(counter: nat, width: nat): (b: seq<Byte>)
    ensures |b| == width
  {
    if width == 0 then [] else CounterBytes(counter / 256, width - 1) + [counter % 256]
  }

  /** Eight bytes read as one number, most significant first. */
  function BigEndian(b: seq<Byte>): nat {
    if b == [] then 0 else 256 * BigEndian(b[..|b| - 1]) + b[|b| - 1]
  }

  lemma {:induction false} CounterReadsBack(counter: nat, width: nat)
    requires counter < Scale(1, 8 * width)
    ensures BigEndian(CounterBytes(counter, width)) == counter
  {
    if width > 0 {
      ScaleByByte(1, 8 * (width - 1));
      CounterReadsBack(counter / 256, width - 1);
      assert CounterBytes(counter, width)[..width - 1] == CounterBytes(counter / 256, width - 1);
    }
  }

  /** No two moments' steps are sent to the HMAC as the same message. */
  lemma StepsAreDifferentMessages(a: Moment, b: Moment)
    requires Step(a) >= 0 && Step(b) >= 0
    ensures CounterBytes(Step(a), 8) == CounterBytes(Step(b), 8) <==> Step(a) == Step(b)
  {
    ScaleByBytes(1);
    ScaleByByte(1, 32);
    ScaleByByte(1, 40);
    ScaleByByte(1, 48);
    ScaleByByte(1, 56);
    CounterReadsBack(Step(a), 8);
    CounterReadsBack(Step(b), 8);
  }

  /**
   * RFC 6238 section 4.2: a step is thirty seconds. Two moments are sent to the
   * HMAC as the same message exactly when no whole half minute parts them.
   */
  lemma StepsAreHalfMinutes(a: Moment, b: Moment)
    requires 0 <= a <= b
    ensures Step(a) * 30_000 <= a < Step(a) * 30_000 + 30_000
    ensures CounterBytes(Step(a), 8) == CounterBytes(Step(b), 8) <==> !exists k :: a < k * 30_000 <= b
  {
    StepsAreDifferentMessages(a, b);
    if Step(a) < Step(b) {
      assert a < Step(b) * 30_000 <= b;
    }
  }

  /** The message is eight bytes that read, most significant first, as the step. */
  lemma MessagesAreBigEndian(at: Moment)
    requires at >= 0
    ensures |CounterBytes(Step(at), 8)| == 8 && BigEndian(CounterBytes(Step(at), 8)) == at / 30_000
  {
    ScaleByBytes(1);
    ScaleByByte(1, 32);
    ScaleByByte(1, 40);
    ScaleByByte(1, 48);
    ScaleByByte(1, 56);
    CounterReadsBack(Step(at), 8);
  }

  /** The four bytes at the offset the last one names, as the shifts and masks combine them. */
  function Truncated(digest: Digest): nat {
    var offset := And(digest[19], 0x0f);
    OffsetInBounds(digest);
    Combined(digest[offset], digest[offset + 1], digest[offset + 2], digest[offset + 3])
  }

  function Combined(a: Byte, b: Byte, c: Byte, d: Byte): nat {
    Or(Or(Or(Shl(And(a, 0x7f), 24), Shl(And(b, 0xff), 16)), Shl(And(c, 0xff), 8)), And(d, 0xff))
  }

  lemma OffsetInBounds(digest: Digest)
    ensures And(digest[19], 0x0f) == digest[19] % 16 && digest[19] % 16 + 3 < |digest|
  {
    MaskFourBits(digest[19]);
  }

  function Code(hmac: Hmac, key: seq<Byte>, counter: nat): string {
    PadStart(Print(Truncated(hmac(key, CounterBytes(counter, 8))) % 1_000_000), DIGITS)
  }

  function Hotp(hmac: Hmac, key: seq<Byte>, counter: int): Result<string, Failure> {
    if counter < 0 then Err(RangeError) else Ok(Code(hmac, key, counter))
  }

  function GenerateTotp(hmac: Hmac, secret: string, at: Moment): Result<string, Failure> {
    Hotp(hmac, Decoded(secret), Step(at))
  }

  /** A code with everything but its digits removed. */
  function DigitsOf(code: string): string {
    if code == "" then ""
    else DigitsOf(code[..|code| - 1]) + if IsDigit(code[|code| - 1]) then [code[|code| - 1]] else []
  }

  /** Does the code belong to one of the three steps around `step`? */
  predicate Near(hmac: Hmac, key: seq<Byte>, step: int, candidate: string) {
    exists counter: nat | step - DRIFT_STEPS <= counter <= step + DRIFT_STEPS :: Code(hmac, key, counter) == candidate
  }

  function Verdict(hmac: Hmac, secret: string, code: string, at: Moment): Result<bool, Failure> {
    Judged(hmac, Decoded(secret), DigitsOf(code), Step(at))
  }

  function Judged(hmac: Hmac, key: seq<Byte>, candidate: string, step: int): Result<bool, Failure> {
    if |candidate| != DIGITS then Ok(false)
    else if step < 1 then Err(RangeError)
    else Ok(Near(hmac, key, step, candidate))
  }

  /** A key's code for each step. */
  type Codes = int -> Result<string, Failure>

  /** The answer of trying the steps `first` to `last` in turn, whatever `codeAt` gives for each. */
  function Tried(codeAt: Codes, first: int, last: int, candidate: string): Result<bool, Failure>
    decreases last + 1 - first
  {
    if first > last then Ok(false)
    else if codeAt(first).Err? then Err(RangeError)
    else if codeAt(first).value == candidate then Ok(true)
    else Tried(codeAt, first + 1, last, candidate)
  }

  lemma {:induction false} TriedFindsAny(codeAt: Codes, first: int, last: int, candidate: string)
    requires forall k :: codeAt(k).Err? <==> k < 0
    ensures first < 0 && first <= last ==> Tried(codeAt, first, last, candidate) == Err(RangeError)
    ensures first >= 0 ==>
              Tried(codeAt, first, last, candidate) == Ok(exists k | first <= k <= last :: codeAt(k) == Ok(candidate))
    decreases last + 1 - first
  {
    if 0 <= first <= last {
      TriedFindsAny(codeAt, first + 1, last, candidate);
    }
  }

  function CodeAt(hmac: Hmac, key: seq<Byte>): Codes {
    counter => Hotp(hmac, key, counter)
  }

  /** The check as it runs: each neighbouring step in turn, the earliest first. */
  method VerifyTotp(hmac: Hmac, secret: string, code: string, at: Moment) returns (r: Result<bool, Failure>)
    ensures r == Verdict(hmac, secret, code, at)
  {
    var candidate := DigitsOf(code);
    if |candidate| != DIGITS {
      return Ok(false);
    }
    var key := Base32Decode(secret);
    r := Judge(hmac, key, candidate, Step(at));
  }

  method Judge(hmac: Hmac, key: seq<Byte>, candidate: string, step: int) returns (r: Result<bool, Failure>)
    requires |candidate| == DIGITS
    ensures r == Judged(hmac, key, candidate, step)
  {
    TriedIsJudged(hmac, key, step, candidate);
    r := TrySteps(CodeAt(hmac, key), step, candidate);
  }

  method TrySteps(codeAt: Codes, step: int, candidate: string) returns (r: Result<bool, Failure>)
    ensures r == Tried(codeAt, step - DRIFT_STEPS, step + DRIFT_STEPS, candidate)
  {
    var drift: int := -DRIFT_STEPS;
    while drift <= DRIFT_STEPS
      invariant drift <= DRIFT_STEPS + 1
      invariant Tried(codeAt, step - DRIFT_STEPS, step + DRIFT_STEPS, candidate)
             == Tried(codeAt, step + drift, step + DRIFT_STEPS, candidate)
    {
      var expected := codeAt(step + drift);
      if expected.Err? {
        return Err(RangeError);
      }
      if expected.value == candidate {
        return Ok(true);
      }
      drift := drift + 1;
    }
    r := Ok(false);
  }

  lemma {:induction false} TriedIsJudged(hmac: Hmac, key: seq<Byte>, step: int, candidate: string)
    requires |candidate| == DIGITS
    ensures Tried(CodeAt(hmac, key), step - DRIFT_STEPS, step + DRIFT_STEPS, candidate)
         == Judged(hmac, key, candidate, step)
  {
    var codeAt := CodeAt(hmac, key);
    TriedFindsAny(codeAt, step - DRIFT_STEPS, step + DRIFT_STEPS, candidate);
    forall k: nat
      ensures codeAt(k) == Ok(candidate) <==> Code(hmac, key, k) == candidate
    {
    }
  }

  /** The byte `i` places after the offset. */
  function ByteAt(digest: Digest, i: nat): Byte
    requires i <= 3
  {
    digest[digest[19] % 16 + i]
  }

  /**
   * RFC 4226 section 5.3: the truncation is a non-negative 31-bit number, the
   * four bytes at an in-bounds offset read big-endian with the top bit cleared.
   */
  lemma {:induction false} TruncationIsDynamic(digest: Digest)
    ensures Truncated(digest) == (ByteAt(digest, 0) % 128) * 0x100_0000 + ByteAt(digest, 1) * 0x1_0000
                                 + ByteAt(digest, 2) * 0x100 + ByteAt(digest, 3)
    ensures Truncated(digest) < 0x8000_0000
  {
    OffsetInBounds(digest);
    CombinedBytes(ByteAt(digest, 0), ByteAt(digest, 1), ByteAt(digest, 2), ByteAt(digest, 3));
  }

  lemma {:induction false} CombinedBytes(a: Byte, b: Byte, c: Byte, d: Byte)
    ensures Combined(a, b, c, d) == (a % 128) * 0x100_0000 + b * 0x1_0000 + c * 0x100 + d
  {
    MaskSevenBits(a);
    MaskByte(b);
    MaskByte(c);
    MaskByte(d);
    FourBytes(a % 128, b, c, d);
  }

  lemma {:induction false} MaskByte(b: Byte)
    ensures And(b, 0xff) == b
  {
    assert Pow2(8) == 256;
    assert Scale(0, 8) == 0;
    MaskKeepsRemainder(0, b, 8);
  }

  lemma {:induction false} MaskSevenBits(a: nat)
    ensures And(a, 0x7f) == a % 128
  {
    assert Pow2(7) == 128;
    ScaleByLess(a / 128);
    MaskKeepsRemainder(a / 128, a % 128, 7);
  }

  lemma {:induction false} MaskFourBits(a: nat)
    ensures And(a, 0x0f) == a % 16
  {
    assert Pow2(4) == 16;
    ScaleByLess(a / 16);
    MaskKeepsRemainder(a / 16, a % 16, 4);
  }

  lemma {:induction false} TwoBytes(a: nat, b: Byte)
    requires a < 128
    ensures Or(Shl(a, 24), Shl(b, 16)) == 0x1_0000 * (a * 256 + b)
  {
    Shifted(a);
    Shifted(b);
    JoinBelow(Shl(a, 24), a, 24, Shl(b, 16));
  }

  lemma {:induction false} ThreeBytes(a: nat, b: Byte, c: Byte)
    requires a < 128
    ensures Or(Or(Shl(a, 24), Shl(b, 16)), Shl(c, 8)) == 0x100 * ((a * 256 + b) * 256 + c)
  {
    TwoBytes(a, b);
    Shifted(c);
    JoinBelow(0x1_0000 * (a * 256 + b), a * 256 + b, 16, Shl(c, 8));
  }

  lemma {:induction false} FourBytes(a: nat, b: Byte, c: Byte, d: Byte)
    requires a < 128
    ensures Or(Or(Or(Shl(a, 24), Shl(b, 16)), Shl(c, 8)), d) == a * 0x100_0000 + b * 0x1_0000 + c * 0x100 + d
  {
    ThreeBytes(a, b, c);
    JoinBelow(0x100 * ((a * 256 + b) * 256 + c), (a * 256 + b) * 256 + c, 8, d);
  }

  lemma {:induction false} Shifted(v: nat)
    ensures v < 256 ==> Shl(v, 8) == 0x100 * v && Shl(v, 16) == 0x1_0000 * v
    ensures v < 128 ==> Shl(v, 24) == 0x100_0000 * v
  {
    ScaleByBytes(v);
    if v < 256 {
      ShlWithoutLoss(v, 8);
      ShlWithoutLoss(v, 16);
    }
    if v < 128 {
      ShlWithoutLoss(v, 24);
    }
  }

  /** Or-ing something small into the low bits left free for it. */
  lemma {:induction false} JoinBelow(v: nat, high: nat, n: nat, low: nat)
    requires || (n == 8 && v == 0x100 * high && low < 0x100)
             || (n == 16 && v == 0x1_0000 * high && low < 0x1_0000)
             || (n == 24 && v == 0x100_0000 * high && low < 0x100_0000)
    ensures Or(v, low) == v + low
  {
    ScaleByBytes(1);
    PowIsScale(n);
    ScaleByBytes(high);
    OrOfDisjoint(high, low, n);
  }

  /** Every code is six digits, and spells the truncation modulo a million. */
  lemma CodesAreSixDigits(hmac: Hmac, key: seq<Byte>, counter: nat)
    ensures var code := Code(hmac, key, counter);
            && |code| == 6 && (forall c | c in code :: '0' <= c <= '9')
            && Read(code) == Truncated(hmac(key, CounterBytes(counter, 8))) % 1_000_000
  {
    var n := Truncated(hmac(key, CounterBytes(counter, 8))) % 1_000_000;
    assert Pow10(6) == 1_000_000;
    PrintLength(n, 6);
    PaddedReadsTheSame(Print(n), DIGITS);
    ReadOfPrint(n);
  }

  lemma {:induction false} DigitsOfDigits(code: string)
    requires forall c | c in code :: IsDigit(c)
    ensures DigitsOf(code) == code
  {
    if code != "" {
      DigitsOfDigits(code[..|code| - 1]);
    }
  }

  lemma {:induction false} DigitsJoin(s: string, t: string)
    ensures DigitsOf(s + t) == DigitsOf(s) + DigitsOf(t)
  {
    if t == "" {
      assert s + t == s;
    } else {
      DigitsJoin(s, t[..|t| - 1]);
      assert (s + t)[..|s + t| - 1] == s + t[..|t| - 1];
    }
  }

  lemma {:induction false} NoDigits(junk: string)
    requires forall c | c in junk :: !IsDigit(c)
    ensures DigitsOf(junk) == ""
  {
    if junk != "" {
      NoDigits(junk[..|junk| - 1]);
    }
  }

  /** Whatever else is typed between the digits, and wherever, the verdict is the same. */
  lemma InsertedCharactersAreHarmless(hmac: Hmac, secret: string, s: string, junk: string, t: string, at: Moment)
    requires forall c | c in junk :: !('0' <= c <= '9')
    ensures Verdict(hmac, secret, s + junk + t, at) == Verdict(hmac, secret, s + t, at)
  {
    assert DigitsOf(s + junk + t) == DigitsOf(s + t) by {
      DigitsJoin(s + junk, t);
      DigitsJoin(s, junk);
      NoDigits(junk);
      DigitsJoin(s, t);
    }
  }

  /**
   * A code generated up to thirty seconds away, typed with any other characters
   * in between, is accepted exactly when the check happens at step one or
   * later; in the first thirty seconds of 1970 the check throws instead.
   */
  lemma NearbyCodesAreAccepted(hmac: Hmac, secret: string, made: Moment, checked: Moment, typed: string)
    requires 0 <= made && -30_000 <= made - checked <= 30_000
    requires GenerateTotp(hmac, secret, made) == Ok(DigitsOf(typed))
    ensures Verdict(hmac, secret, typed, checked) == Ok(true) <==> Step(checked) >= 1
    ensures Verdict(hmac, secret, typed, checked) == Err(RangeError) <==> Step(checked) < 1
  {
    CodesAreSixDigits(hmac, Decoded(secret), Step(made));
    assert Step(checked) - 1 <= Step(made) <= Step(checked) + 1;
    assert Code(hmac, Decoded(secret), Step(made)) == DigitsOf(typed);
  }

  /**
   * Nothing else is accepted: an accepted code is, digit for digit, one of the
   * three. Six digits in the first thirty seconds of 1970 throw, and whatever
   * else is typed is refused, then too.
   */
  lemma OnlyNearbyCodesAreAccepted(hmac: Hmac, secret: string, typed: string, at: Moment)
    ensures Verdict(hmac, secret, typed, at) == Ok(true) <==>
            at >= 30_000 && exists step: nat | at / 30_000 - 1 <= step <= at / 30_000 + 1 ::
              DigitsOf(typed) == Code(hmac, Decoded(secret), step)
    ensures Verdict(hmac, secret, typed, at) == Err(RangeError) <==> |DigitsOf(typed)| == 6 && at < 30_000
  {
    forall step: nat ensures |Code(hmac, Decoded(secret), step)| == DIGITS {
      CodesAreSixDigits(hmac, Decoded(secret), step);
    }
  }
}
