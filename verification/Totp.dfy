/**
  The second factor of a login (internal/account/account.go, MatchTOTP, totpCode
  and TOTPSteps; internal/api/auth.go, login). RFC 6238 over RFC 4226, with the
  HMAC as a parameter and every byte of the truncation written out.
*/
module Totp {
  import opened Basics


  /** Bytes of a counter, and digits of a code. */
  const WORD: nat := 8
  const CODE_LENGTH: nat := 6

  /** HMAC-SHA-1: a secret and a message to twenty bytes. */
  type Sum = s: seq<Byte> | |s| == 20 witness seq(20, _ => 0)
  type Mac = (seq<Byte>, seq<Byte>) -> Sum

  // ---- The code of one time step (section 5.3 of RFC 4226) --------------------------

  /** The number eight big-endian bytes stand for. */
  function Number(bytes: seq<Byte>): (n: nat)
    ensures n < Power256(|bytes|)
  {
    if bytes == [] then 0 else Number(bytes[..|bytes| - 1]) * 256 + bytes[|bytes| - 1]
  }

  function Power256(n: nat): (p: nat)
    ensures p >= 1
  {
    if n == 0 then 1 else 256 * Power256(n - 1)
  }

  function CounterBytes(counter: int, n: nat): (b: seq<Byte>)
    ensures |b| == n
    decreases n
  {
    if n == 0 then [] else CounterBytes(counter / 256, n - 1) + [counter % 256]
  }

  /** The message is the counter as a 64-bit two's complement number. */
  lemma {:induction false} CounterBytesNumber(counter: int, n: nat)
    ensures Number(CounterBytes(counter, n)) == counter % Power256(n)
    decreases n
  {
    if n > 0 {
      var rest := CounterBytes(counter / 256, n - 1);
      assert CounterBytes(counter, n)[..n - 1] == rest;
      CounterBytesNumber(counter / 256, n - 1);
      SplitModulus(counter, Power256(n - 1));
    }
  }

  lemma {:induction false} SplitModulus(x: int, m: nat)
    requires m >= 1
    ensures x % (256 * m) == (x / 256) % m * 256 + x % 256
  {
    var q, r := x / 256 / m, (x / 256) % m;
    assert x == 256 * (q * m + r) + x % 256;
    assert x == q * (256 * m) + (r * 256 + x % 256) by {
      assert 256 * (q * m) == q * (256 * m);
    }
    RemainderIs(x, 256 * m, q, r * 256 + x % 256);
  }

  lemma {:induction false} RemainderIs(x: int, m: nat, q: int, r: nat)
    requires m >= 1 && x == q * m + r && r < m
    ensures x % m == r
  {
    var d := q - x / m;
    assert d * m == x % m - r;
    assert d >= 1 ==> d * m >= m;
    assert d <= -1 ==> d * m <= -1 * m;
  }

  lemma {:induction false} WordRange()
    ensures Power256(WORD) == 0x1_0000_0000_0000_0000
  {
    assert Power256(4) == 0x1_0000_0000;
    assert Power256(6) == 0x1_0000_0000_0000;
    assert Power256(8) == 0x1_0000_0000_0000_0000;
  }

  /** Two counters a 64-bit clock can hold are never the same message. */
  lemma {:induction false} CounterBytesInjective(a: int, b: int)
    requires -0x8000_0000_0000_0000 <= a < 0x8000_0000_0000_0000
    requires -0x8000_0000_0000_0000 <= b < 0x8000_0000_0000_0000
    requires CounterBytes(a, WORD) == CounterBytes(b, WORD)
    ensures a == b
  {
    CounterBytesNumber(a, WORD);
    CounterBytesNumber(b, WORD);
    WordRange();
    SameRemainder(a, b, Power256(WORD));
  }

  lemma {:induction false} SameRemainder(a: int, b: int, m: nat)
    requires m >= 1 && a % m == b % m && a - b < m && b - a < m
    ensures a == b
  {
    var d := a / m - b / m;
    assert d * m == a - b;
    assert d >= 1 ==> d * m >= m;
    assert d <= -1 ==> d * m <= -1 * m;
  }

  /** The thirty-one bits the last nibble points at, modulo a million. */
  function Truncated(sum: Sum): (n: nat)
    ensures n < 1000000
  {
    var offset := sum[19] % 16;
    Number([sum[offset] % 128, sum[offset + 1], sum[offset + 2], sum[offset + 3]]) % 1000000
  }

  predicate AllDigits(s: string) {
    forall i | 0 <= i < |s| :: '0' <= s[i] <= '9'
  }

  function DecimalValue(s: string): (n: nat)
    requires AllDigits(s)
  {
    if s == "" then 0 else DecimalValue(s[..|s| - 1]) * 10 + (s[|s| - 1] - '0') as nat
  }

  function Digits(value: nat, width: nat): (s: string)
    ensures |s| == width && AllDigits(s)
  {
    if width == 0 then "" else Digits(value / 10, width - 1) + [(value % 10) as char + '0']
  }

  function Power10(n: nat): (p: nat) {
    if n == 0 then 1 else 10 * Power10(n - 1)
  }

  /** Zero-padding loses nothing of a value that fits. */
  lemma {:induction false} DigitsRoundTrip(value: nat, width: nat)
    requires value < Power10(width)
    ensures DecimalValue(Digits(value, width)) == value
  {
    if width > 0 {
      var s := Digits(value, width);
      assert s[..width - 1] == Digits(value / 10, width - 1);
      DigitsRoundTrip(value / 10, width - 1);
    }
  }

  function Code(mac: Mac, secret: seq<Byte>, counter: int): string {
    Digits(Truncated(mac(secret, CounterBytes(counter, WORD))), CODE_LENGTH)
  }

  /** totpCode's first loop: the counter shifted out byte by byte into a buffer. */
  method Message(counter: int, n: nat) returns (message: seq<Byte>)
    ensures message == CounterBytes(counter, n)
  {
    var buf := new Byte[n];
    var left, i := counter, n;
    while i > 0
      invariant 0 <= i <= n
      invariant CounterBytes(counter, n) == CounterBytes(left, i) + buf[i..]
    {
      i := i - 1;
      ghost var was := buf[i + 1..];
      assert CounterBytes(left, i + 1) == CounterBytes(left / 256, i) + [left % 256];
      buf[i] := left % 256;
      assert buf[i..] == [left % 256] + was;
      left := left / 256;
    }
    message := buf[..];
  }

  /** totpCode. */
  method TotpCode(mac: Mac, secret: seq<Byte>, counter: int) returns (code: string)
    ensures code == Code(mac, secret, counter)
    ensures |code| == CODE_LENGTH && AllDigits(code)
    ensures DecimalValue(code) == Truncated(mac(secret, CounterBytes(counter, WORD)))
  {
    var message := Message(counter, WORD);
    var sum := mac(secret, message);
    var offset := sum[|sum| - 1] % 16;
    var top: nat, high: nat, low: nat := sum[offset] % 128, sum[offset + 1], sum[offset + 2];
    var truncated := top * 0x1000000 + high * 0x10000 + low * 0x100 + sum[offset + 3];
    FourBytes(sum[offset] % 128, sum[offset + 1], sum[offset + 2], sum[offset + 3]);
    code := Digits(truncated % 1000000, CODE_LENGTH);
    assert Power10(6) == 1000000;
    DigitsRoundTrip(truncated % 1000000, CODE_LENGTH);
  }

  lemma {:induction false} FourBytes(a: nat, b: nat, c: nat, d: nat)
    requires a < 256 && b < 256 && c < 256 && d < 256
    ensures Number([a, b, c, d]) == a * 0x1000000 + b * 0x10000 + c * 0x100 + d
  {
    assert [a, b, c, d][..3] == [a, b, c] && [a, b, c][..2] == [a, b] && [a, b][..1] == [a] && [a][..0] == [];
    assert Number([a]) == a;
    assert Number([a, b]) == a * 256 + b;
  }

  // ---- The same, bit by bit -----------------------------------------------------------

  function And(x: nat, y: nat): nat {
    if x == 0 || y == 0 then 0 else 2 * And(x / 2, y / 2) + if x % 2 == 1 && y % 2 == 1 then 1 else 0
  }

  function Or(x: nat, y: nat): nat {
    if x == 0 then y else if y == 0 then x else 2 * Or(x / 2, y / 2) + if x % 2 == 1 || y % 2 == 1 then 1 else 0
  }

  function ShiftLeft(x: nat, n: nat): nat {
    if n == 0 then x else 2 * ShiftLeft(x, n - 1)
  }

  /** Or of what a shift cleared is a sum. */
  lemma {:induction false} OrBelow(x: nat, n: nat, y: nat)
    requires y < ShiftLeft(1, n)
    ensures Or(ShiftLeft(x, n), y) == ShiftLeft(x, n) + y
  {
    if n > 0 && ShiftLeft(x, n) != 0 && y != 0 {
      OrBelow(x, n - 1, y / 2);
    }
  }

  lemma {:induction false} Shifts(x: nat)
    ensures ShiftLeft(x, 8) == 0x100 * x && ShiftLeft(x, 16) == 0x10000 * x && ShiftLeft(x, 24) == 0x1000000 * x
  {
    ShiftFour(x, 0);
    ShiftFour(x, 4);
    ShiftFour(x, 8);
    ShiftFour(x, 12);
    ShiftFour(x, 16);
    ShiftFour(x, 20);
  }

  lemma {:induction false} ShiftFour(x: nat, n: nat)
    ensures ShiftLeft(x, n + 4) == 16 * ShiftLeft(x, n)
  {
    assert ShiftLeft(x, n + 1) == 2 * ShiftLeft(x, n);
    assert ShiftLeft(x, n + 2) == 2 * ShiftLeft(x, n + 1);
    assert ShiftLeft(x, n + 3) == 2 * ShiftLeft(x, n + 2);
  }

  /** A mask of n low bits is a remainder. */
  lemma {:induction false} MaskIsRemainder(x: nat, n: nat)
    ensures ShiftLeft(1, n) >= 1 && And(x, ShiftLeft(1, n) - 1) == x % ShiftLeft(1, n)
  {
    if n > 0 {
      var m := ShiftLeft(1, n - 1);
      MaskIsRemainder(x / 2, n - 1);
      HalfRemainder(x, m);
      assert (2 * m - 1) / 2 == m - 1 && (2 * m - 1) % 2 == 1;
    }
  }

  lemma {:induction false} HalfRemainder(x: nat, m: nat)
    requires m >= 1
    ensures x % (2 * m) == 2 * (x / 2 % m) + x % 2
  {
    var q, r := x / 2 / m, x / 2 % m;
    assert x == q * (2 * m) + (2 * r + x % 2) by {
      assert 2 * (q * m) == q * (2 * m);
    }
    RemainderIs(x, 2 * m, q, 2 * r + x % 2);
  }

  /** The low four and the low seven bits of a byte. */
  lemma {:induction false} LowBits(x: nat)
    ensures And(x, 0x0f) == x % 16 && And(x, 0x7f) == x % 128
  {
    MaskIsRemainder(x, 4);
    MaskIsRemainder(x, 7);
    assert ShiftLeft(1, 4) == 16 && ShiftLeft(1, 7) == 128;
  }

  /** The thirty-one bits at the offset the low four bits of the last byte name. */
  function Bits(sum: Sum): nat {
    var offset := And(sum[19], 0x0f);
    LowBits(sum[19]);
    Or(Or(Or(ShiftLeft(And(sum[offset], 0x7f), 24), ShiftLeft(sum[offset + 1], 16)), ShiftLeft(sum[offset + 2], 8)), sum[offset + 3])
  }

  lemma {:induction false} OrOfFour(a: nat, b: nat, c: nat, d: nat)
    requires a < 256 && b < 256 && c < 256 && d < 256
    ensures Or(Or(Or(ShiftLeft(a, 24), ShiftLeft(b, 16)), ShiftLeft(c, 8)), d) == a * 0x1000000 + b * 0x10000 + c * 0x100 + d
  {
    Shifts(1);
    Shifts(a);
    Shifts(b);
    Shifts(c);
    OrBelow(a, 24, ShiftLeft(b, 16));
    Shifts(a * 256 + b);
    OrBelow(a * 256 + b, 16, ShiftLeft(c, 8));
    Shifts(a * 65536 + b * 256 + c);
    OrBelow(a * 65536 + b * 256 + c, 8, d);
  }

  /** For every HMAC the code is six digits that spell those bits modulo a million. */
  lemma {:induction false} CodeIsTheBits(mac: Mac, secret: seq<Byte>, counter: int)
    ensures var sum := mac(secret, CounterBytes(counter, 8));
            var code := Code(mac, secret, counter);
            |code| == 6 && AllDigits(code) && DecimalValue(code) == Bits(sum) % 1000000
  {
    var sum := mac(secret, CounterBytes(counter, 8));
    var o := sum[19] % 16;
    LowBits(sum[19]);
    LowBits(sum[o]);
    OrOfFour(sum[o] % 128, sum[o + 1], sum[o + 2], sum[o + 3]);
    FourBytes(sum[o] % 128, sum[o + 1], sum[o + 2], sum[o + 3]);
    assert Power10(6) == 1000000;
    DigitsRoundTrip(Truncated(sum), 6);
  }

  /** The worked example of section 5.4 of RFC 4226. */
  lemma {:induction false} WorkedExample(mac: Mac, secret: seq<Byte>, counter: int)
    requires mac(secret, CounterBytes(counter, 8)) == ExampleSum()
    ensures Code(mac, secret, counter) == "872921"
  {
    ExampleTruncated();
    ExampleDigits();
  }

  function ExampleSum(): Sum {
    [0x1f, 0x86, 0x98, 0x69, 0x0e, 0x02, 0xca, 0x16, 0x61, 0x85, 0x50, 0xef, 0x7f, 0x19, 0xda, 0x8e, 0x94, 0x5b, 0x55, 0x5a]
  }

  lemma {:induction false} ExampleTruncated()
    ensures Truncated(ExampleSum()) == 872921
  {
    var sum := ExampleSum();
    assert sum[19] % 16 == 10 && sum[10] % 128 == 0x50 && sum[11] == 0xef && sum[12] == 0x7f && sum[13] == 0x19;
    FourBytes(0x50, 0xef, 0x7f, 0x19);
  }

  lemma {:induction false} ExampleDigits()
    ensures Digits(872921, CODE_LENGTH) == "872921"
  {
    assert Digits(8, 1) == "8";
    assert Digits(87, 2) == "87";
    assert Digits(872, 3) == "872";
    assert Digits(8729, 4) == "8729";
    assert Digits(87292, 5) == "87292";
  }

  /** The message is the counter's bytes, the most significant first. */
  lemma {:induction false} CounterBytesAt(counter: int, n: nat, i: nat)
    requires i < n
    ensures CounterBytes(counter, n)[i] == counter / Power256(n - 1 - i) % 256
    decreases n
  {
    if i < n - 1 {
      CounterBytesAt(counter / 256, n - 1, i);
      DivideTwice(counter, Power256(n - 2 - i));
    }
  }

  lemma {:induction false} DivideTwice(x: int, m: nat)
    requires m >= 1
    ensures x / 256 / m == x / (256 * m)
  {
    var q, r := x / 256 / m, (x / 256) % m;
    var low := r * 256 + x % 256;
    assert x == q * (256 * m) + low by {
      assert 256 * (q * m) == q * (256 * m);
    }
    var d := q - x / (256 * m);
    assert d * (256 * m) == x % (256 * m) - low;
    assert d >= 1 ==> d * (256 * m) >= 256 * m;
    assert d <= -1 ==> d * (256 * m) <= -1 * (256 * m);
  }

  // ---- Which step a code is for (section 5.2 of RFC 6238) -----------------------------

  /** What an account has enrolled. `Secret` carries the code of each step. */
  datatype Factor = NotEnrolled | Undecodable | Secret(codes: int -> string)

  /** The text stored with an account, empty for none, as `decode` reads it. */
  function FactorOf(mac: Mac, decode: string -> Option<seq<Byte>>, text: string): Factor {
    if text == "" then NotEnrolled
    else
      match decode(text)
      case None => Undecodable
      case Some(secret) => Secret(step => Code(mac, secret, step))
  }

  /** Seconds to thirty-second steps, dividing toward zero. */
  function Counter(now: int): (c: int) {
    if now >= 0 then now / 30 else -(-now / 30)
  }

  /** A step is thirty seconds: from the start of time on, c is the step of exactly the
      seconds from 30 c to 30 c + 29. */
  lemma {:induction false} StepIsThirtySeconds(now: int)
    ensures now >= 0 ==> 30 * Counter(now) <= now < 30 * (Counter(now) + 1)
    ensures now < 0 ==> 30 * (Counter(now) - 1) < now <= 30 * Counter(now)
  {
  }

  lemma {:induction false} CounterMonotone(a: int, b: int)
    requires a <= b
    ensures Counter(a) <= Counter(b)
  {
  }

  predicate CodeFor(factor: Factor, code: string, step: int) {
    factor.Secret? && factor.codes(step) == code
  }

  /** MatchTOTP: of the three steps a code may be for, the greatest; the selection has
      no branch on the comparison. */
  method MatchTotp(available: bool, factor: Factor, code: string, now: int) returns (step: int, valid: bool)
    ensures valid <==> available && exists s | Counter(now) - 1 <= s <= Counter(now) + 1 :: CodeFor(factor, code, s)
    ensures valid ==> CodeFor(factor, code, step) && Counter(now) - 1 <= step <= Counter(now) + 1
    ensures valid ==> forall s | step < s <= Counter(now) + 1 :: !CodeFor(factor, code, s)
    ensures !valid ==> step == 0
  {
    if factor.NotEnrolled? {
      return 0, false;
    }
    if !available {
      return 0, false;
    }
    if factor.Undecodable? {
      return 0, false;
    }
    var counter := Counter(now);
    var found := 0;
    step := 0;
    var skew := -1;
    while skew <= 1
      invariant -1 <= skew <= 2 && (found == 0 || found == 1)
      invariant found == 1 ==> counter - 1 <= step < counter + skew && CodeFor(factor, code, step)
      invariant found == 0 ==> step == 0
      invariant forall s | (found == 1 ==> step < s) && counter - 1 <= s < counter + skew :: !CodeFor(factor, code, s)
    {
      var eq := if factor.codes(counter + skew) == code then 1 else 0;
      assert eq == 1 <==> CodeFor(factor, code, counter + skew);
      step := Select(eq, counter + skew, step);
      found := if eq == 1 then 1 else found;
      skew := skew + 1;
    }
    valid := found == 1;
  }

  /** A code is for a step of an account exactly when it is what totpCode gives for it. */
  lemma {:induction false} CodeForIsTotpCode(mac: Mac, decode: string -> Option<seq<Byte>>, text: string, code: string, step: int)
    ensures CodeFor(FactorOf(mac, decode, text), code, step) <==>
            text != "" && decode(text).Some? && code == Code(mac, decode(text).value, step)
  {
  }

  /** MatchTOTP on an account, from its stored text. */
  method MatchAccount(mac: Mac, decode: string -> Option<seq<Byte>>, available: bool, text: string, code: string, now: int)
    returns (step: int, valid: bool)
    ensures valid <==> available && exists s | Counter(now) - 1 <= s <= Counter(now) + 1 :: CodeFor(FactorOf(mac, decode, text), code, s)
    ensures valid ==> text != "" && decode(text).Some? && code == Code(mac, decode(text).value, step)
    ensures valid ==> Counter(now) - 1 <= step <= Counter(now) + 1
    ensures valid ==> forall s | step < s <= Counter(now) + 1 :: !CodeFor(FactorOf(mac, decode, text), code, s)
    ensures !valid ==> step == 0
  {
    var factor := FactorOf(mac, decode, text);
    step, valid := MatchTotp(available, factor, code, now);
    CodeForIsTotpCode(mac, decode, text, code, step);
  }

  method Select(eq: int, a: int, b: int) returns (r: int)
    requires eq == 0 || eq == 1
    ensures r == if eq == 1 then a else b
  {
    r := eq * a + (1 - eq) * b;
  }

  // ---- A step is used once -------------------------------------------------------------

  class TotpSteps {
    var last: map<string, int>

    constructor ()
      ensures last == map[]
    {
      last := map[];
    }

    method Use(name: string, step: int) returns (ok: bool)
      modifies this
      ensures (last, ok) == Used(old(last), name, step)
    {
      if name in last && step <= last[name] {
        return false;
      }
      last := last[name := step];
      ok := true;
    }
  }

  function Used(last: map<string, int>, name: string, step: int): (r: (map<string, int>, bool)) {
    if name in last && step <= last[name] then (last, false) else (last[name := step], true)
  }

  // ---- Runs ------------------------------------------------------------------------------

  /** A login is matched at one moment and uses its step at a later one; others come
      between. A restart forgets every step, and every login under way. */
  datatype Event = Clock(to: int) | Restart | Login(name: string, matched: int, step: int)

  datatype State = State(last: map<string, int>, since: int, now: int)

  /** Whether an event can happen: the clock does not go back, and a step offered is
      one a match since the process began could have given. */
  predicate CanHappen(s: State, e: Event) {
    match e
    case Clock(to) => s.now <= to
    case Restart => true
    case Login(_, matched, step) =>
      s.since <= matched <= s.now && Counter(matched) - 1 <= step <= Counter(matched) + 1
  }

  function After(s: State, e: Event): State {
    match e
    case Clock(to) => s.(now := to)
    case Restart => State(map[], s.now, s.now)
    case Login(name, _, step) => s.(last := Used(s.last, name, step).0)
  }

  ghost predicate Happens(s: State, es: seq<Event>)
    decreases es
  {
    es == [] || (CanHappen(s, es[0]) && Happens(After(s, es[0]), es[1..]))
  }

  function End(s: State, es: seq<Event>): State
    decreases es
  {
    if es == [] then s else End(After(s, es[0]), es[1..])
  }

  /** The steps an account was let in for, in order. */
  function Accepted(s: State, es: seq<Event>, name: string): seq<int>
    decreases es
  {
    if es == [] then []
    else
      (if LetsIn(s, es[0], name) then [es[0].step] else [])
      + Accepted(After(s, es[0]), es[1..], name)
  }

  predicate LetsIn(s: State, e: Event, name: string) {
    e.Login? && e.name == name && Used(s.last, name, e.step).1
  }

  /** How many of those were matched no earlier than t0. */
  function AcceptedSince(s: State, es: seq<Event>, name: string, t0: int): nat
    decreases es
  {
    if es == [] then 0
    else
      (if LetsIn(s, es[0], name) && es[0].matched >= t0 then 1 else 0)
      + AcceptedSince(After(s, es[0]), es[1..], name, t0)
  }

  function Restarts(es: seq<Event>): nat {
    if es == [] then 0 else (if es[0].Restart? then 1 else 0) + Restarts(es[1..])
  }

  ghost predicate Increasing(steps: seq<int>) {
    forall i, j | 0 <= i < j < |steps| :: steps[i] < steps[j]
  }

  ghost predicate AllAbove(steps: seq<int>, floor: int) {
    forall i | 0 <= i < |steps| :: floor < steps[i]
  }

  lemma {:induction false} IncreasingFrom(first: int, later: seq<int>)
    requires Increasing(later) && AllAbove(later, first)
    ensures Increasing([first] + later)
    ensures forall floor | floor < first :: AllAbove([first] + later, floor)
  {
  }

  /** Without a restart, an account's steps only go up: no code is good twice. */
  lemma {:induction false} StepsIncrease(s: State, es: seq<Event>, name: string)
    requires Restarts(es) == 0
    ensures Increasing(Accepted(s, es, name))
    ensures name in s.last ==> AllAbove(Accepted(s, es, name), s.last[name])
    decreases es
  {
    if es != [] {
      var e := es[0];
      var t := After(s, e);
      StepsIncrease(t, es[1..], name);
      var later := Accepted(t, es[1..], name);
      if LetsIn(s, e, name) {
        assert Accepted(s, es, name) == [e.step] + later;
        IncreasingFrom(e.step, later);
      } else {
        assert Accepted(s, es, name) == later;
        assert name in s.last ==> name in t.last && t.last[name] == s.last[name];
      }
    }
  }

  /** The highest step spent, or the highest no login matched since t0, or since the
      process began, can offer. */
  function Spent(s: State, name: string, t0: int): int {
    var floor := Counter(Max(s.since, t0)) - 2;
    if name in s.last && s.last[name] > floor then s.last[name] else floor
  }

  ghost predicate Timely(s: State) {
    s.since <= s.now && forall name | name in s.last :: s.last[name] <= Counter(s.now) + 1
  }

  lemma {:induction false} StepTimely(s: State, e: Event)
    requires Timely(s) && CanHappen(s, e)
    ensures Timely(After(s, e)) && After(s, e).now >= s.now
  {
    match e {
      case Clock(to) => CounterMonotone(s.now, to);
      case Restart =>
      case Login(_, matched, _) => CounterMonotone(matched, s.now);
    }
  }

  lemma {:induction false} SpentAtMost(s: State, name: string, t0: int)
    requires Timely(s) && t0 <= s.now
    ensures Counter(t0) - 2 <= Spent(s, name, t0) <= Counter(s.now) + 1
  {
    CounterMonotone(t0, Max(s.since, t0));
    CounterMonotone(Max(s.since, t0), s.now);
  }

  /** A login that counts spends a step; only a restart gives any back, and at most three. */
  lemma {:induction false} StepSpends(s: State, e: Event, name: string, t0: int)
    requires Timely(s) && CanHappen(s, e) && t0 <= s.now
    ensures Spent(s, name, t0) + (if LetsIn(s, e, name) && e.matched >= t0 then 1 else 0)
            <= Spent(After(s, e), name, t0) + (if e.Restart? then 3 else 0)
  {
    SpentAtMost(s, name, t0);
    if e.Login? && e.matched >= t0 {
      CounterMonotone(Max(s.since, t0), e.matched);
    }
  }

  lemma {:induction false} SpendingBound(s: State, es: seq<Event>, name: string, t0: int)
    requires Timely(s) && Happens(s, es) && t0 <= s.now
    ensures Timely(End(s, es)) && End(s, es).now >= s.now
    ensures Spent(s, name, t0) + AcceptedSince(s, es, name, t0) <= Spent(End(s, es), name, t0) + 3 * Restarts(es)
    decreases es
  {
    if es != [] {
      StepTimely(s, es[0]);
      StepSpends(s, es[0], name, t0);
      SpendingBound(After(s, es[0]), es[1..], name, t0);
    }
  }

  /** From any moment t0 of any run to any later t1, an account is let in at most once
      for each step from the one before t0's to the one after t1's, and three times more
      per restart, by logins matched in that time. */
  lemma {:induction false} LoginsBound(s: State, es: seq<Event>, name: string)
    requires Timely(s) && Happens(s, es)
    ensures var t0, t1 := s.now, End(s, es).now;
            t0 <= t1 && AcceptedSince(s, es, name, t0) <= Counter(t1) - Counter(t0) + 3 + 3 * Restarts(es)
  {
    SpendingBound(s, es, name, s.now);
    SpentAtMost(s, name, s.now);
    SpentAtMost(End(s, es), name, s.now);
  }

  /** Every state of every run is one that bound begins from. */
  lemma {:induction false} RunIsTimely(t: int, es: seq<Event>)
    requires Happens(State(map[], t, t), es)
    ensures Timely(End(State(map[], t, t), es))
  {
    SpendingBound(State(map[], t, t), es, "", t);
  }

  // ---- Runs that show the bound is exact ------------------------------------------------

  lemma {:induction false} HappensThen(s: State, es: seq<Event>, e: Event)
    requires Happens(s, es) && CanHappen(End(s, es), e)
    ensures Happens(s, es + [e]) && End(s, es + [e]) == After(End(s, es), e)
    ensures Restarts(es + [e]) == Restarts(es) + if e.Restart? then 1 else 0
    ensures forall name, t0 :: AcceptedSince(s, es + [e], name, t0) ==
                               AcceptedSince(s, es, name, t0) + if LetsIn(End(s, es), e, name) && e.matched >= t0 then 1 else 0
    decreases es
  {
    if es == [] {
      assert es + [e] == [e] && [e][1..] == [];
    } else {
      assert (es + [e])[1..] == es[1..] + [e] && (es + [e])[0] == es[0];
      HappensThen(After(s, es[0]), es[1..], e);
    }
  }

  /** A run that has met the bound between t0 and now. */
  ghost predicate Meets(t0: int, es: seq<Event>, name: string, t1: int, restarts: nat) {
    var s := State(map[], t0, t0);
    && Happens(s, es) && Restarts(es) == restarts
    && End(s, es).since <= End(s, es).now == t1 && name in End(s, es).last && End(s, es).last[name] == Counter(t1) + 1
    && AcceptedSince(s, es, name, t0) == Counter(t1) - Counter(t0) + 3 + 3 * restarts
  }

  /** Three more logins, from a state that has just begun. */
  lemma {:induction false} ThreeMore(s: State, es: seq<Event>, name: string, t0: int) returns (fs: seq<Event>)
    requires Happens(s, es) && t0 <= End(s, es).now == End(s, es).since && name !in End(s, es).last
    ensures Happens(s, fs) && Restarts(fs) == Restarts(es)
    ensures End(s, fs) == End(s, es).(last := End(s, es).last[name := Counter(End(s, es).now) + 1])
    ensures AcceptedSince(s, fs, name, t0) == AcceptedSince(s, es, name, t0) + 3
  {
    var t, now := End(s, es), End(s, es).now;
    var c := Counter(now);
    HappensThen(s, es, Login(name, now, c - 1));
    fs := es + [Login(name, now, c - 1)];
    HappensThen(s, fs, Login(name, now, c));
    fs := fs + [Login(name, now, c)];
    HappensThen(s, fs, Login(name, now, c + 1));
    fs := fs + [Login(name, now, c + 1)];
    assert t.last[name := c - 1][name := c][name := c + 1] == t.last[name := c + 1];
  }

  /** The bound is met between any two moments, with any number of restarts. */
  lemma {:induction false} LoginsBoundIsMet(t0: int, t1: int, name: string, restarts: nat) returns (es: seq<Event>)
    requires t0 <= t1
    ensures Meets(t0, es, name, t1, restarts)
    decreases restarts, t1 - t0
  {
    var s := State(map[], t0, t0);
    if restarts > 0 {
      es := LoginsBoundIsMet(t0, t1, name, restarts - 1);
      HappensThen(s, es, Restart);
      es := ThreeMore(s, es + [Restart], name, t0);
    } else if t0 < t1 {
      es := LoginsBoundIsMet(t0, t1 - 1, name, 0);
      HappensThen(s, es, Clock(t1));
      es := es + [Clock(t1)];
      if Counter(t1) > Counter(t1 - 1) {
        HappensThen(s, es, Login(name, t1, Counter(t1) + 1));
        es := es + [Login(name, t1, Counter(t1) + 1)];
      }
    } else {
      es := ThreeMore(s, [], name, t0);
    }
  }

  // ---- Counted by when they are let in ---------------------------------------------------

  /** Every login uses its step at most d after its code was matched. */
  ghost predicate Prompt(s: State, es: seq<Event>, d: nat)
    decreases es
  {
    es == [] || ((es[0].Login? ==> s.now - es[0].matched <= d) && Prompt(After(s, es[0]), es[1..], d))
  }

  lemma {:induction false} PromptAreSince(s: State, es: seq<Event>, name: string, d: nat, t0: int)
    requires Timely(s) && Happens(s, es) && Prompt(s, es, d) && t0 <= s.now
    ensures AcceptedSince(s, es, name, t0 - d) == |Accepted(s, es, name)|
    decreases es
  {
    if es != [] {
      StepTimely(s, es[0]);
      PromptAreSince(After(s, es[0]), es[1..], name, d, t0);
    }
  }

  /** With every login used within d of its match, those let in between t0 and t1 number at
      most as many as were matched between t0 - d and t1 could. */
  lemma {:induction false} DelayedLoginsBound(s: State, es: seq<Event>, name: string, d: nat)
    requires Timely(s) && Happens(s, es) && Prompt(s, es, d)
    ensures var t0, t1 := s.now, End(s, es).now;
            |Accepted(s, es, name)| <= Counter(t1) - Counter(t0 - d) + 3 + 3 * Restarts(es)
  {
    PromptAreSince(s, es, name, d, s.now);
    SpendingBound(s, es, name, s.now - d);
    SpentAtMost(s, name, s.now - d);
    SpentAtMost(End(s, es), name, s.now - d);
  }

  /** Whatever is let in from t0 on keeps to the bound that counts by the match. */
  ghost predicate PlainBoundHolds(t0: int, d: nat) {
    forall s, es, name | Timely(s) && s.now == t0 && Happens(s, es) && Prompt(s, es, d) ::
      |Accepted(s, es, name)| <= Counter(End(s, es).now) - Counter(t0) + 3 + 3 * Restarts(es)
  }

  /** Exactly when a login cannot have been matched in an earlier step. */
  lemma {:induction false} PlainBoundHoldsIff(t0: int, d: nat)
    ensures PlainBoundHolds(t0, d) <==> Counter(t0 - d) == Counter(t0)
  {
    if Counter(t0 - d) == Counter(t0) {
      forall s, es, name | Timely(s) && s.now == t0 && Happens(s, es) && Prompt(s, es, d)
        ensures |Accepted(s, es, name)| <= Counter(End(s, es).now) - Counter(t0) + 3 + 3 * Restarts(es)
      {
        DelayedLoginsBound(s, es, name, d);
      }
    } else {
      CounterMonotone(t0 - d, t0);
      var s, es := HeldUpLoginsExceedIt(t0, d, "");
    }
  }

  /** Otherwise one login held up since t0 - d and three more are let in at t0 alone. */
  lemma {:induction false} HeldUpLoginsExceedIt(t0: int, d: nat, name: string) returns (s: State, es: seq<Event>)
    requires Counter(t0 - d) < Counter(t0)
    ensures Timely(s) && Happens(s, es) && Prompt(s, es, d) && Restarts(es) == 0 && s.now == End(s, es).now == t0
    ensures |Accepted(s, es, name)| == 4
  {
    var b, c := Counter(t0 - d), Counter(t0);
    s := State(map[], t0 - d, t0);
    es := [Login(name, t0 - d, b - 1), Login(name, t0, c - 1), Login(name, t0, c), Login(name, t0, c + 1)];
    var s1, s2, s3, s4 :=
      s.(last := map[name := b - 1]), s.(last := map[name := c - 1]), s.(last := map[name := c]), s.(last := map[name := c + 1]);
    FrontedBy(s3, es[3], s4, [], d);
    FrontedBy(s2, es[2], s3, [es[3]], d);
    FrontedBy(s1, es[1], s2, [es[2], es[3]], d);
    FrontedBy(s, es[0], s1, [es[1], es[2], es[3]], d);
    assert es == [es[0]] + [es[1], es[2], es[3]];
  }

  lemma {:induction false} FrontedBy(s: State, e: Event, t: State, rest: seq<Event>, d: nat)
    requires e.Login? && CanHappen(s, e) && LetsIn(s, e, e.name) && Happens(t, rest)
    requires t.last == After(s, e).last && t.since == s.since && t.now == s.now
    requires s.now - e.matched <= d && Prompt(t, rest, d)
    ensures var es := [e] + rest;
            && Happens(s, es) && End(s, es) == End(t, rest) && Restarts(es) == Restarts(rest) && Prompt(s, es, d)
            && Accepted(s, es, e.name) == [e.step] + Accepted(t, rest, e.name)
  {
    assert ([e] + rest)[1..] == rest;
  }
}
