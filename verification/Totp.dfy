/**
 One-time codes: six digits from a 20-byte HMAC by dynamic truncation (section 5.3 of
 RFC 4226) over 30-second steps (RFC 6238), and their verification.

 HMAC-SHA1 is a parameter: any function from the eight message bytes to twenty bytes.
 */
module Totp {
  import opened Options
  import opened Texts

  type Byte = b: int | 0 <= b < 256

  const PERIOD := 30
  const DIGITS := 6
  const SKEW := 1

  // ---------- steps ----------

  /** Integer division as the source's int64 division does it: towards zero. */
  function StepAt(unix: int): int {
    if unix >= 0 then unix / PERIOD else -((-unix) / PERIOD)
  }

  lemma StepMonotone(t0: int, t1: int)
    requires t0 <= t1
    ensures StepAt(t0) <= StepAt(t1)
  {
  }

  // ---------- the code of a step ----------

  const WORD := 0x1_0000_0000_0000_0000

  /** The step as the unsigned 64-bit number the source converts it to. */
  function AsUnsigned(s: int): nat { s % WORD }

  function Pow256(n: nat): (p: nat)
    ensures p > 0
  {
    if n == 0 then 1 else 256 * Pow256(n - 1)
  }

  /** What a big-endian string of bytes stands for. */
  function Value(bytes: seq<Byte>): nat {
    if bytes == [] then 0 else 256 * Value(bytes[..|bytes| - 1]) + bytes[|bytes| - 1]
  }

  /** The last `n` base-256 digits of `x`, most significant first. */
  function BigEndian(x: nat, n: nat): (bytes: seq<Byte>)
    ensures |bytes| == n
  {
    if n == 0 then [] else BigEndian(x / 256, n - 1) + [x % 256]
  }

  lemma {:induction false} BigEndianValue(x: nat, n: nat)
    ensures Value(BigEndian(x, n)) == x % Pow256(n)
    decreases n
  {
    if n > 0 {
      BigEndianValue(x / 256, n - 1);
      var bytes := BigEndian(x, n);
      assert bytes[..n - 1] == BigEndian(x / 256, n - 1);
      ModStep(x, Pow256(n - 1));
    }
  }

  lemma ModStep(x: nat, m: nat)
    requires m > 0
    ensures x % (256 * m) == 256 * (x / 256 % m) + x % 256
  {
    var q, r := x / 256, x % 256;
    var k, j := q / m, q % m;
    assert x == 256 * q + r && q == m * k + j;
    assert x == (256 * m) * k + (256 * j + r) by { assert 256 * (m * k + j) == (256 * m) * k + 256 * j; }
    assert 256 * j + r < 256 * m;
    Remainder(x, 256 * m, k, 256 * j + r);
  }

  lemma Remainder(x: nat, m: nat, k: nat, r: nat)
    requires m > 0 && x == m * k + r && r < m
    ensures x % m == r
  {
    var k', r' := x / m, x % m;
    assert x == m * k' + r';
    assert m * (k - k') == r' - r by { assert m * (k - k') == m * k - m * k'; }
    assert m * (k' - k) == r - r' by { assert m * (k' - k) == m * k' - m * k; }
    if k > k' {
      Scaled(m, k - k');
    } else if k' > k {
      Scaled(m, k' - k);
    }
  }

  lemma Scaled(m: nat, d: nat)
    requires d >= 1
    ensures m * d >= m
  {
  }

  type Mac = (seq<int>, seq<Byte>) -> seq<Byte>

  /** HMAC-SHA1 gives twenty bytes, whatever it is given. */
  ghost predicate TwentyBytes(mac: Mac) {
    forall k, m :: |mac(k, m)| == 20
  }

  /** The four bytes at the offset that the low half of the last byte names, less their top bit. */
  function Truncated(sum: seq<Byte>): (n: nat)
    requires |sum| == 20
    ensures n < 0x8000_0000
  {
    var off := sum[19] % 16;
    Value(sum[off..off + 4]) % 0x8000_0000
  }

  lemma ValueOfFour(a: Byte, b: Byte, c: Byte, d: Byte)
    ensures Value([a, b, c, d]) == a as int * 0x100_0000 + b as int * 0x1_0000 + c as int * 0x100 + d as int
  {
    assert [a, b, c, d][..3] == [a, b, c] && [a, b, c][..2] == [a, b] && [a, b][..1] == [a] && [a][..0] == [];
    assert Value([a]) == a as int;
    assert Value([a, b]) == a as int * 0x100 + b as int;
    assert Value([a, b, c]) == a as int * 0x1_0000 + b as int * 0x100 + c as int;
  }

  lemma TopBitDropped(a: Byte, rest: nat)
    requires rest < 0x100_0000
    ensures (a as int * 0x100_0000 + rest) % 0x8000_0000 == a as int % 128 * 0x100_0000 + rest
  {
  }

  /** Dynamic truncation reads the four bytes at the offset in the last nibble, big-endian, without their top bit. */
  lemma TruncatedIs(sum: seq<Byte>)
    requires |sum| == 20
    ensures var off := sum[19] as int % 16;
            Truncated(sum) == sum[off] as int % 128 * 0x100_0000 + sum[off + 1] as int * 0x1_0000
                              + sum[off + 2] as int * 0x100 + sum[off + 3] as int
  {
    var off := sum[19] as int % 16;
    assert sum[off..off + 4] == [sum[off], sum[off + 1], sum[off + 2], sum[off + 3]];
    ValueOfFour(sum[off], sum[off + 1], sum[off + 2], sum[off + 3]);
    TopBitDropped(sum[off], sum[off + 1] as int * 0x1_0000 + sum[off + 2] as int * 0x100 + sum[off + 3] as int);
  }

  /** Nothing else in the sum matters. */
  lemma OnlyFourBytesMatter(sum: seq<Byte>, other: seq<Byte>)
    requires |sum| == 20 && |other| == 20 && other[19] as int % 16 == sum[19] as int % 16
    requires forall i :: sum[19] as int % 16 <= i < sum[19] as int % 16 + 4 ==> other[i] == sum[i]
    ensures Truncated(other) == Truncated(sum)
  {
    TruncatedIs(sum);
    TruncatedIs(other);
  }

  function Digit(d: nat): char
    requires d < 10
  {
    '0' + d as char
  }

  /** `n` decimal digits of `x`, padded with zeros. */
  function Decimal(x: nat, n: nat): (s: string)
    ensures |s| == n
  {
    if n == 0 then "" else Decimal(x / 10, n - 1) + [Digit(x % 10)]
  }

  predicate IsDigit(c: char) { '0' <= c <= '9' }

  function Number(s: string): nat
    requires forall i :: 0 <= i < |s| ==> IsDigit(s[i])
  {
    if s == "" then 0 else assert IsDigit(s[|s| - 1]); 10 * Number(s[..|s| - 1]) + (s[|s| - 1] as int - '0' as int)
  }

  function Pow10(n: nat): nat {
    if n == 0 then 1 else 10 * Pow10(n - 1)
  }

  /** The printed digits read back as the number, when it has no more digits than that. */
  lemma {:induction false} DecimalReadsBack(x: nat, n: nat)
    requires x < Pow10(n)
    ensures forall i :: 0 <= i < n ==> IsDigit(Decimal(x, n)[i])
    ensures Number(Decimal(x, n)) == x
    decreases n
  {
    if n > 0 {
      DecimalReadsBack(x / 10, n - 1);
      var s := Decimal(x, n);
      assert s[..n - 1] == Decimal(x / 10, n - 1);
    }
  }

  /** The message that is authenticated for a step. */
  function Message(s: int): seq<Byte> {
    BigEndian(AsUnsigned(s), 8)
  }

  function Code(mac: Mac, key: seq<int>, s: int): string
    requires |mac(key, Message(s))| == 20
  {
    Decimal(Truncated(mac(key, Message(s))) % 1_000_000, DIGITS)
  }

  /**
   A code is always six digits, and they print the truncated HMAC modulo a million; the
   message it authenticates is the step itself, in eight big-endian bytes.
   */
  lemma CodeIsSixDigits(mac: Mac, key: seq<int>, s: int)
    requires TwentyBytes(mac)
    ensures |Code(mac, key, s)| == 6 && forall i :: 0 <= i < 6 ==> IsDigit(Code(mac, key, s)[i])
    ensures Number(Code(mac, key, s)) == Truncated(mac(key, Message(s))) % 1_000_000
    ensures 0 <= s < WORD ==> Value(Message(s)) == s
  {
    SixDigits(Truncated(mac(key, Message(s))));
    MessageIsStep(s);
  }

  lemma SixDigits(n: nat)
    ensures var code := Decimal(n % 1_000_000, DIGITS);
            && (forall i :: 0 <= i < 6 ==> IsDigit(code[i]))
            && Number(code) == n % 1_000_000
  {
    Pow10Six();
    DecimalReadsBack(n % 1_000_000, DIGITS);
  }

  lemma MessageIsStep(s: int)
    ensures 0 <= s < WORD ==> Value(Message(s)) == s
  {
    BigEndianValue(AsUnsigned(s), 8);
    Pow256Eight();
  }

  lemma Pow10Six()
    ensures Pow10(6) == 1_000_000
  {
  }

  lemma Pow256Eight()
    ensures Pow256(8) == WORD
  {
  }

  /** PutUint64: the eight bytes of the message, written into a buffer. */
  method FillMessage(s: int) returns (msg: array<Byte>)
    ensures fresh(msg) && msg.Length == 8 && msg[..] == Message(s)
  {
    msg := new Byte[8](_ => 0);
    var rest := AsUnsigned(s);
    for i := 8 downto 0
      invariant msg.Length == 8
      invariant BigEndian(rest, i) + msg[i..] == Message(s)
    {
      ghost var written := msg[i + 1..];
      msg[i] := rest % 256;
      assert BigEndian(rest, i + 1) == BigEndian(rest / 256, i) + [rest % 256];
      assert msg[i..] == [rest % 256] + written;
      rest := rest / 256;
    }
    assert msg[0..] == msg[..];
  }

  // ---------- verification ----------

  /** Unicode white space, as the source's TrimSpace knows it. */
  predicate IsSpace(c: char) {
    || '\t' <= c <= '\r' || c == ' ' || c == '\U{85}' || c == '\U{A0}' || c == '\U{1680}'
    || '\U{2000}' <= c <= '\U{200A}' || c == '\U{2028}' || c == '\U{2029}' || c == '\U{202F}'
    || c == '\U{205F}' || c == '\U{3000}'
  }

  function NoBlanks(s: string): string {
    if s == "" then "" else if s[0] == ' ' then NoBlanks(s[1..]) else [s[0]] + NoBlanks(s[1..])
  }

  /** The input as it is compared: without the spaces people type. */
  function Normal(input: string): string {
    NoBlanks(Trim(input, IsSpace))
  }

  /** A step at which the input is right and that was not used. */
  predicate Matches(mac: Mac, key: seq<int>, input: string, now: int, lastStep: int, s: int)
    requires |mac(key, Message(s))| == 20
  {
    StepAt(now) - SKEW <= s <= StepAt(now) + SKEW && s > lastStep && Code(mac, key, s) == Normal(input)
  }

  /** The first step from `s` to `last` that is later than `used` and whose code is this one. */
  function FirstMatch(mac: Mac, key: seq<int>, typed: string, used: int, s: int, last: int): Option<int>
    requires TwentyBytes(mac)
    decreases last - s
  {
    if s > last then None
    else if s > used && Code(mac, key, s) == typed then Some(s)
    else FirstMatch(mac, key, typed, used, s + 1, last)
  }

  /** Verification, as a function. */
  function Verified(mac: Mac, key: seq<int>, input: string, now: int, lastStep: int): Option<int>
    requires TwentyBytes(mac)
  {
    if |Normal(input)| != DIGITS then None
    else FirstMatch(mac, key, Normal(input), lastStep, StepAt(now) - SKEW, StepAt(now) + SKEW)
  }

  /**
   Verify: the earliest unused step of the window at which the input is right.  A key that
   does not decode is `None`.
   */
  method Verify(mac: Mac, key: Option<seq<int>>, input: string, now: int, lastStep: int) returns (step: Option<int>)
    requires TwentyBytes(mac)
    ensures step == if key.Some? then Verified(mac, key.value, input, now, lastStep) else None
    ensures key.Some? && step.Some? ==>
              && Matches(mac, key.value, input, now, lastStep, step.value)
              && forall s :: Matches(mac, key.value, input, now, lastStep, s) ==> step.value <= s
    ensures key.Some? && step == None ==> forall s :: !Matches(mac, key.value, input, now, lastStep, s)
  {
    if key.None? {
      return None;
    }
    VerifiedIsEarliest(mac, key.value, input, now, lastStep);
    var typed := Normal(input);
    if |typed| != DIGITS {
      return None;
    }
    var cur := StepAt(now);
    step := Search(mac, key.value, typed, lastStep, cur - SKEW, cur + SKEW);
  }

  /** The loop over the steps of the window. */
  method Search(mac: Mac, key: seq<int>, typed: string, used: int, first: int, last: int) returns (step: Option<int>)
    requires TwentyBytes(mac)
    ensures step == FirstMatch(mac, key, typed, used, first, last)
  {
    var s := first;
    while s <= last
      invariant FirstMatch(mac, key, typed, used, first, last) == FirstMatch(mac, key, typed, used, s, last)
      decreases last - s
    {
      if s > used && Code(mac, key, s) == typed {
        return Some(s);
      }
      s := s + 1;
    }
    step := None;
  }

  /** What the function finds is the earliest match, and it finds one if there is any. */
  lemma VerifiedIsEarliest(mac: Mac, key: seq<int>, input: string, now: int, lastStep: int)
    requires TwentyBytes(mac)
    ensures var step := Verified(mac, key, input, now, lastStep);
            && (step.Some? ==> Matches(mac, key, input, now, lastStep, step.value))
            && (forall s :: Matches(mac, key, input, now, lastStep, s) ==> step.Some? && step.value <= s)
  {
    FirstMatchIs(mac, key, Normal(input), lastStep, StepAt(now) - SKEW, StepAt(now) + SKEW);
  }

  lemma {:induction false} FirstMatchIs(mac: Mac, key: seq<int>, typed: string, used: int, s: int, last: int)
    requires TwentyBytes(mac)
    ensures var step := FirstMatch(mac, key, typed, used, s, last);
            && (step.Some? ==> s <= step.value <= last && step.value > used && Code(mac, key, step.value) == typed)
            && (forall k :: s <= k <= last && k > used && Code(mac, key, k) == typed ==> step.Some? && step.value <= k)
    decreases last - s
  {
    if s <= last {
      FirstMatchIs(mac, key, typed, used, s + 1, last);
    }
  }

  /** Only a step of the window is ever matched. */
  lemma VerifiedInWindow(mac: Mac, key: seq<int>, input: string, now: int, lastStep: int)
    requires TwentyBytes(mac)
    ensures Verified(mac, key, input, now, lastStep).Some? ==>
              StepAt(now) - SKEW <= Verified(mac, key, input, now, lastStep).value <= StepAt(now) + SKEW
  {
    VerifiedIsEarliest(mac, key, input, now, lastStep);
  }

  /** Every unused step has its moment: one step later its own code is matched with it. */
  lemma EveryStepHasItsMoment(mac: Mac, key: seq<int>, lastStep: int, s: int)
    requires TwentyBytes(mac) && lastStep < s
    ensures Verified(mac, key, Code(mac, key, s), PERIOD * (s + 1), lastStep) == Some(s)
  {
    CodeIsSixDigits(mac, key, s);
    DigitsStay(Code(mac, key, s));
    StepBegins(s + 1);
    FirstOfWindow(mac, key, lastStep, s);
  }

  lemma StepBegins(s: int)
    ensures StepAt(PERIOD * s) == s
  {
  }

  lemma FirstOfWindow(mac: Mac, key: seq<int>, used: int, s: int)
    requires TwentyBytes(mac) && used < s
    ensures FirstMatch(mac, key, Code(mac, key, s), used, s, s + 2 * SKEW) == Some(s)
  {
  }

  lemma {:induction false} NothingTrimmed(s: string)
    requires forall i :: 0 <= i < |s| ==> IsDigit(s[i])
    ensures TrimLeft(s, IsSpace) == s && TrimRight(s, IsSpace) == s && NoBlanks(s) == s
    decreases |s|
  {
    if s != "" {
      NothingTrimmed(s[1..]);
      assert s == [s[0]] + s[1..];
    }
  }

  lemma DigitsStay(s: string)
    requires forall i :: 0 <= i < |s| ==> IsDigit(s[i])
    ensures Normal(s) == s
  {
    NothingTrimmed(s);
  }

  // ---------- what people type ----------

  /** The digits of a text, in order. */
  function DigitsOf(s: string): string {
    if s == "" then "" else if IsDigit(s[0]) then [s[0]] + DigitsOf(s[1..]) else DigitsOf(s[1..])
  }

  predicate DigitsAndBlanks(s: string) {
    forall i :: 0 <= i < |s| ==> IsDigit(s[i]) || s[i] == ' '
  }

  lemma {:induction false} BlanksGo(s: string)
    requires DigitsAndBlanks(s)
    ensures NoBlanks(s) == DigitsOf(s)
    decreases |s|
  {
    if s != "" {
      BlanksGo(s[1..]);
    }
  }

  lemma {:induction false} LeftTrimKeepsDigits(s: string)
    requires DigitsAndBlanks(s)
    ensures DigitsAndBlanks(TrimLeft(s, IsSpace)) && DigitsOf(TrimLeft(s, IsSpace)) == DigitsOf(s)
    decreases |s|
  {
    if s != "" && IsSpace(s[0]) {
      LeftTrimKeepsDigits(s[1..]);
    }
  }

  lemma {:induction false} DigitsOfAppend(s: string, t: string)
    ensures DigitsOf(s + t) == DigitsOf(s) + DigitsOf(t)
    decreases |s|
  {
    if s == "" {
      assert s + t == t;
    } else {
      assert (s + t)[1..] == s[1..] + t;
      DigitsOfAppend(s[1..], t);
    }
  }

  lemma {:induction false} RightTrimKeepsDigits(s: string)
    requires DigitsAndBlanks(s)
    ensures DigitsAndBlanks(TrimRight(s, IsSpace)) && DigitsOf(TrimRight(s, IsSpace)) == DigitsOf(s)
    decreases |s|
  {
    if s != "" && IsSpace(s[|s| - 1]) {
      RightTrimKeepsDigits(s[..|s| - 1]);
      assert s == s[..|s| - 1] + [s[|s| - 1]];
      DigitsOfAppend(s[..|s| - 1], [s[|s| - 1]]);
      assert [s[|s| - 1]][1..] == "";
    }
  }

  /** Blanks before, after and between the digits of a code do not matter. */
  lemma BlanksDoNotMatter(mac: Mac, key: seq<int>, typed: string, now: int, lastStep: int)
    requires TwentyBytes(mac) && DigitsAndBlanks(typed)
    ensures Normal(typed) == DigitsOf(typed)
    ensures Verified(mac, key, typed, now, lastStep) == Verified(mac, key, DigitsOf(typed), now, lastStep)
  {
    LeftTrimKeepsDigits(typed);
    RightTrimKeepsDigits(TrimLeft(typed, IsSpace));
    BlanksGo(Trim(typed, IsSpace));
    OnlyDigits(typed);
    DigitsStay(DigitsOf(typed));
  }

  lemma {:induction false} OnlyDigits(s: string)
    ensures forall i :: 0 <= i < |DigitsOf(s)| ==> IsDigit(DigitsOf(s)[i])
    decreases |s|
  {
    if s != "" {
      OnlyDigits(s[1..]);
    }
  }

  /** Nor does white space of any kind around them. */
  lemma SurroundingsDoNotMatter(before: string, digits: string, after: string)
    requires AllOf(before, IsSpace) && AllOf(after, IsSpace)
    requires digits != "" && forall i :: 0 <= i < |digits| ==> IsDigit(digits[i])
    ensures Normal(before + (digits + after)) == digits
  {
    assert Firm(digits, IsSpace);
    TrimTo(before, digits, after, IsSpace);
    NothingTrimmed(digits);
  }

  // ---------- the example of RFC 4226 ----------

  /** The HMAC of section 5.4 of RFC 4226. */
  const EXAMPLE: seq<Byte> :=
    [0x1f, 0x86, 0x98, 0x69, 0x0e, 0x02, 0xca, 0x16, 0x61, 0x85, 0x50, 0xef, 0x7f, 0x19, 0xda, 0x8e, 0x94, 0x5b, 0x55, 0x5a]

  lemma ExampleDigits()
    ensures Decimal(1357872921 % 1_000_000, 6) == "872921"
  {
    assert Decimal(8, 1) == "8";
    assert Decimal(87, 2) == "87";
    assert Decimal(872, 3) == "872";
    assert Decimal(8729, 4) == "8729";
    assert Decimal(87292, 5) == "87292";
  }

  lemma ExampleTruncated()
    ensures Truncated(EXAMPLE) == 1357872921
  {
    TruncatedIs(EXAMPLE);
  }

  lemma CodeFrom(mac: Mac, key: seq<int>, s: int, sum: seq<Byte>, n: nat)
    requires mac(key, Message(s)) == sum && |sum| == 20 && Truncated(sum) == n
    ensures Code(mac, key, s) == Decimal(n % 1_000_000, 6)
  {
  }

  /** A code that is right at the present step is accepted with it, where the step before was used. */
  lemma PresentCode(mac: Mac, key: seq<int>, s: int, lastStep: int)
    requires TwentyBytes(mac) && lastStep == s - 1
    ensures Verified(mac, key, Code(mac, key, s), PERIOD * s, lastStep) == Some(s)
  {
    CodeIsSixDigits(mac, key, s);
    DigitsStay(Code(mac, key, s));
    StepBegins(s);
    var step := FirstMatch(mac, key, Code(mac, key, s), lastStep, s - 1, s + 1);
    assert step == FirstMatch(mac, key, Code(mac, key, s), lastStep, s, s + 1);
  }

  lemma TruncatedToCode(mac: Mac, key: seq<int>, sum: seq<Byte>)
    requires TwentyBytes(mac) && mac(key, Message(1)) == sum && |sum| == 20 && Truncated(sum) == 1357872921
    ensures Code(mac, key, 1) == "872921" && Verified(mac, key, "872921", 30, 0) == Some(1)
  {
    CodeFrom(mac, key, 1, sum, 1357872921);
    ExampleDigits();
    PresentCode(mac, key, 1, 0);
  }

  /** Where that is the HMAC of step 1, the code is 872921, and it is accepted half a minute into the epoch. */
  lemma ExampleIsAccepted(mac: Mac, key: seq<int>)
    requires TwentyBytes(mac) && mac(key, Message(1)) == EXAMPLE
    ensures Code(mac, key, 1) == "872921"
    ensures Verified(mac, key, "872921", 30, 0) == Some(1)
  {
    ExampleTruncated();
    TruncatedToCode(mac, key, EXAMPLE);
  }
}
