/** Which SDK errors are transport blips worth a retry. */
module SdkErrors {
  datatype Code =
    | Cancelled | Unknown | InvalidArgument | DeadlineExceeded | NotFound | AlreadyExists | PermissionDenied
    | ResourceExhausted | FailedPrecondition | Aborted | OutOfRange | Unimplemented | Internal | Unavailable
    | DataLoss | Unauthenticated

  datatype Error =
    | Config(message: string)
    | Transport(message: string)
    | Status(code: Code, message: string)
    | Invalid(message: string)
    | Codec(message: string)
    | Build(message: string)
    | Deadline(message: string)

  function LowerChar(c: char): char { if 'A' <= c <= 'Z' then c + ' ' else c }

  function ToAsciiLowercase(s: string): (r: string)
    ensures |r| == |s| && forall i :: 0 <= i < |s| ==> r[i] == LowerChar(s[i])
  {
    if s == [] then [] else [LowerChar(s[0])] + ToAsciiLowercase(s[1..])
  }

  predicate Contains(s: string, part: string) {
    part <= s || (s != [] && Contains(s[1..], part))
  }

  const BLIPS: seq<string> :=
    ["connection reset", "connectionreset", "error reading a body", "h2 protocol error", "broken pipe",
     "transport error", "socket connection closed", "goaway", "connection closed"]

  predicate BlipCode(code: Code) {
    code == Unavailable || code == DeadlineExceeded || code == ResourceExhausted || code == Internal || code == Unknown
  }

  predicate IsTransient(e: Error) {
    match e
    case Transport(_) => true
    case Status(code, message) =>
      BlipCode(code) || exists i :: 0 <= i < |BLIPS| && Contains(ToAsciiLowercase(message), BLIPS[i])
    case _ => false
  }

  /** The small letter of each capital, and every other character as it is. */
  lemma LowerMeans(c: char)
    ensures var i := c as int - 'A' as int;
      if 0 <= i < 26 then LowerChar(c) == "abcdefghijklmnopqrstuvwxyz"[i] && c == "ABCDEFGHIJKLMNOPQRSTUVWXYZ"[i]
      else LowerChar(c) == c
  {}

  /** Two spellings of a message that differ only in ASCII case. */
  ghost predicate SameUpToCase(a: string, b: string) {
    |a| == |b| && forall i :: 0 <= i < |a| ==> LowerChar(a[i]) == LowerChar(b[i])
  }

  /** A status is judged by its code and by its message up to case: the spelling of a blip cannot change the verdict. */
  lemma CaseDoesNotMatter(code: Code, a: string, b: string)
    requires SameUpToCase(a, b)
    ensures IsTransient(Status(code, a)) == IsTransient(Status(code, b))
  {
    assert ToAsciiLowercase(a) == ToAsciiLowercase(b);
  }

  predicate SpelledAt(message: string, phrase: string, i: nat) {
    i + |phrase| <= |message| && forall k :: 0 <= k < |phrase| ==> LowerChar(message[i + k]) == LowerChar(phrase[k])
  }

  /** The message has the phrase in it, in whatever case. */
  ghost predicate Mentions(message: string, phrase: string) { exists i: nat :: SpelledAt(message, phrase, i) }

  predicate LowerCase(phrase: string) { forall i :: 0 <= i < |phrase| ==> LowerChar(phrase[i]) == phrase[i] }

  lemma {:induction false} FindContained(s: string, part: string) returns (i: nat)
    requires Contains(s, part)
    ensures i + |part| <= |s| && s[i..i + |part|] == part
  {
    if part <= s {
      return 0;
    }
    i := FindContained(s[1..], part);
    SliceOfRest(s, i, |part|);
    i := i + 1;
  }

  lemma SliceOfRest(s: string, i: nat, n: nat)
    requires 1 + i + n <= |s|
    ensures s[1..][i..i + n] == s[i + 1..i + 1 + n]
  {}

  lemma {:induction false} ContainedAt(s: string, part: string, i: nat)
    requires i + |part| <= |s| && s[i..i + |part|] == part
    ensures Contains(s, part)
  {
    if i > 0 {
      SliceOfRest(s, i - 1, |part|);
      ContainedAt(s[1..], part, i - 1);
    }
  }

  lemma MentionsIff(message: string, phrase: string)
    requires LowerCase(phrase)
    ensures Contains(ToAsciiLowercase(message), phrase) <==> Mentions(message, phrase)
  {
    var lower := ToAsciiLowercase(message);
    hide ToAsciiLowercase, Contains, LowerChar;
    if Contains(lower, phrase) {
      var i := FindContained(lower, phrase);
      forall k | 0 <= k < |phrase| ensures LowerChar(message[i + k]) == LowerChar(phrase[k]) {
        assert lower[i..i + |phrase|][k] == lower[i + k];
      }
      assert SpelledAt(message, phrase, i);
    }
    if i: nat :| SpelledAt(message, phrase, i) {
      forall k | 0 <= k < |phrase| ensures lower[i..i + |phrase|][k] == phrase[k] {
        assert LowerChar(message[i + k]) == LowerChar(phrase[k]);
      }
      ContainedAt(lower, phrase, i);
    }
  }

  lemma BlipsAreLowerCase(i: nat)
    requires i < |BLIPS|
    ensures LowerCase(BLIPS[i])
  {
    if i < 3 {
      assert BLIPS[i] == ["connection reset", "connectionreset", "error reading a body"][i];
    } else if i < 6 {
      assert BLIPS[i] == ["h2 protocol error", "broken pipe", "transport error"][i - 3];
    } else {
      assert BLIPS[i] == ["socket connection closed", "goaway", "connection closed"][i - 6];
    }
  }

  lemma NamedBlips(message: string)
    ensures (exists i :: 0 <= i < |BLIPS| && Mentions(message, BLIPS[i])) <==>
      || Mentions(message, "connection reset") || Mentions(message, "connectionreset")
      || Mentions(message, "error reading a body") || Mentions(message, "h2 protocol error")
      || Mentions(message, "broken pipe") || Mentions(message, "transport error")
      || Mentions(message, "socket connection closed") || Mentions(message, "goaway")
      || Mentions(message, "connection closed")
  {
    hide Mentions;
    assert BLIPS[0] == "connection reset" && BLIPS[1] == "connectionreset" && BLIPS[2] == "error reading a body";
    assert BLIPS[3] == "h2 protocol error" && BLIPS[4] == "broken pipe" && BLIPS[5] == "transport error";
    assert BLIPS[6] == "socket connection closed" && BLIPS[7] == "goaway" && BLIPS[8] == "connection closed";
  }

  /** A status is worth a retry exactly for five codes, and for any code when the message has one of nine phrases in it. */
  lemma TransientIff(code: Code, message: string)
    ensures IsTransient(Status(code, message)) <==>
      || code in {Unavailable, DeadlineExceeded, ResourceExhausted, Internal, Unknown}
      || Mentions(message, "connection reset") || Mentions(message, "connectionreset")
      || Mentions(message, "error reading a body") || Mentions(message, "h2 protocol error")
      || Mentions(message, "broken pipe") || Mentions(message, "transport error")
      || Mentions(message, "socket connection closed") || Mentions(message, "goaway")
      || Mentions(message, "connection closed")
    ensures IsTransient(Transport(message))
    ensures !IsTransient(Config(message)) && !IsTransient(Invalid(message)) && !IsTransient(Codec(message))
    ensures !IsTransient(Build(message)) && !IsTransient(Deadline(message))
  {
    NamedBlips(message);
    hide Mentions, Contains, ToAsciiLowercase, LowerCase;
    forall i: nat | i < |BLIPS| ensures Contains(ToAsciiLowercase(message), BLIPS[i]) <==> Mentions(message, BLIPS[i]) {
      BlipsAreLowerCase(i);
      MentionsIff(message, BLIPS[i]);
    }
  }
}

/**
 * The retry loop. Time is in whole nanoseconds, the random source is any function, and `op(i)` is what call
 * number `i` returns.
 */
module Retry {
  import opened Wrappers
  import opened SdkErrors
  import opened ByteStrings

  /** `scale` stands for `mul_f64(delay_factor)`, rounding included. */
  datatype RetryPolicy = RetryPolicy(base: nat, cap: nat, scale: nat -> nat, maxAttempts: nat, deadline: nat)

  const MILLISECOND: nat := 1_000_000

  function DefaultPolicy(): RetryPolicy {
    RetryPolicy(100 * MILLISECOND, 5000 * MILLISECOND, (d: nat) => d * 2, 8, 120_000 * MILLISECOND)
  }

  function Min(a: nat, b: nat): nat { if a < b then a else b }

  // ---- jitter ----

  /** Never longer than the delay, and any time up to it for some random number. */
  function Jittered(delay: nat, random: nat): (r: nat)
    ensures r <= delay
    ensures random <= delay ==> r == random
  {
    random % (delay + 1)
  }

  /** Each time from zero up to the delay comes round once in every `delay + 1` random numbers. */
  lemma JitterWraps(delay: nat, random: nat)
    ensures random <= delay ==> Jittered(delay, random) == random
    ensures Jittered(delay, random + delay + 1) == Jittered(delay, random)
  {
    var n := delay + 1;
    var q := random / n;
    OneMore(q, n);
    OneRemainder(n, q + 1, random % n, (random + n) / n, (random + n) % n);
  }

  lemma OneMore(q: nat, n: nat)
    ensures (q + 1) * n == q * n + n
  {}

  lemma {:induction false} AtLeastOneMore(q: nat, q': nat, n: nat)
    requires q < q'
    ensures q' * n >= q * n + n
  {
    OneMore(q' - 1, n);
    if q < q' - 1 {
      AtLeastOneMore(q, q' - 1, n);
    }
  }

  lemma OneRemainder(n: nat, q: nat, r: nat, q': nat, r': nat)
    requires r < n && r' < n && q * n + r == q' * n + r'
    ensures r == r'
  {
    if q < q' {
      AtLeastOneMore(q, q', n);
    } else if q' < q {
      AtLeastOneMore(q', q, n);
    }
  }

  /** `jitter`: `None` is the overflow of `max + 1` on 64 bits, which panics or, unchecked, divides by zero. */
  method Jitter(delay: nat, random: nat) returns (r: Option<nat>)
    ensures r == if delay < TWO_TO_THE_64 - 1 then Some(Jittered(delay, random)) else None
  {
    if delay == 0 {
      assert Jittered(0, random) == 0;
      return Some(delay);
    }
    var max := Min(delay, TWO_TO_THE_64 - 1);
    var modulus := if max + 1 < TWO_TO_THE_64 then max + 1 else max + 1 - TWO_TO_THE_64;
    if modulus == 0 {
      return None;
    }
    return Some(random % modulus);
  }

  // ---- the loop ----

  /** The delay before retry `i + 1`, ahead of jitter. */
  function Delay(p: RetryPolicy, i: nat): nat {
    if i == 0 then p.base else Min(p.scale(Delay(p, i - 1)), p.cap)
  }

  /** Call `i` (from 0) is the last when it succeeds, fails for good, or leaves no attempt or no time for another. */
  predicate Final<T>(p: RetryPolicy, op: nat -> Result<T, Error>, elapsed: nat -> nat, i: nat) {
    || op(i).Ok?
    || !IsTransient(op(i).error)
    || i + 1 >= p.maxAttempts
    || elapsed(i) + Delay(p, i) >= p.deadline
  }

  datatype Outcome<T> = Returned(result: Result<T, Error>) | Panicked

  /** No call before number `n` is final. */
  ghost predicate NoneFinal<T>(p: RetryPolicy, op: nat -> Result<T, Error>, elapsed: nat -> nat, n: nat) {
    forall i: nat :: i < n ==> !Final(p, op, elapsed, i)
  }

  /** After each call but the last, the loop sleeps for that call's jittered delay. */
  ghost predicate SleptJittered(p: RetryPolicy, random: nat -> nat, sleeps: seq<nat>) {
    forall i: nat :: i < |sleeps| ==> sleeps[i] == Jittered(Delay(p, i), random(i))
  }

  lemma DelayNext(p: RetryPolicy, i: nat)
    ensures Delay(p, 0) == p.base && Delay(p, i + 1) == Min(p.scale(Delay(p, i)), p.cap)
  {}

  lemma {:induction false} DelayIsCapped(p: RetryPolicy, i: nat)
    ensures Delay(p, i) <= if p.base > p.cap then p.base else p.cap
  {}

  lemma Advance<T>(p: RetryPolicy, op: nat -> Result<T, Error>, elapsed: nat -> nat, random: nat -> nat, sleeps: seq<nat>)
    requires NoneFinal(p, op, elapsed, |sleeps|) && !Final(p, op, elapsed, |sleeps|)
    requires SleptJittered(p, random, sleeps)
    ensures NoneFinal(p, op, elapsed, |sleeps| + 1)
    ensures SleptJittered(p, random, sleeps + [Jittered(Delay(p, |sleeps|), random(|sleeps|))])
  {
    hide Final, Delay, Jittered;
  }

  /**
   * `retry_transient`. `elapsed(i)` is the time since the start when call `i` has returned; `sleeps[i]` is how long
   * the loop sleeps after it. The loop stops at the first final call and hands back exactly what it returned.
   */
  method RetryTransient<T>(p: RetryPolicy, op: nat -> Result<T, Error>, elapsed: nat -> nat, random: nat -> nat)
    returns (r: Outcome<T>, calls: nat, sleeps: seq<nat>)
    ensures 1 <= calls <= (if p.maxAttempts > 1 then p.maxAttempts else 1)
    ensures NoneFinal(p, op, elapsed, calls - 1)
    ensures |sleeps| == calls - 1 && SleptJittered(p, random, sleeps)
    ensures r == if Final(p, op, elapsed, calls - 1) then Returned(op(calls - 1)) else Panicked
    ensures r.Panicked? ==> Delay(p, calls - 1) >= TWO_TO_THE_64 - 1
    ensures forall i: nat :: i < calls - 1 ==> Delay(p, i) < TWO_TO_THE_64 - 1
    ensures p.base < TWO_TO_THE_64 - 1 && p.cap < TWO_TO_THE_64 - 1 ==> r.Returned?
  {
    hide IsTransient, Jittered, Delay;
    assert NoneFinal(p, op, elapsed, 0) && SleptJittered(p, random, []);
    hide NoneFinal, SleptJittered;
    DelayNext(p, 0);
    var delay := p.base;
    var attempt := 1;
    sleeps := [];
    while true
      invariant 1 <= attempt <= (if p.maxAttempts > 1 then p.maxAttempts else 1)
      invariant delay == Delay(p, attempt - 1)
      invariant NoneFinal(p, op, elapsed, attempt - 1)
      invariant |sleeps| == attempt - 1 && SleptJittered(p, random, sleeps)
      invariant forall i: nat :: i < attempt - 1 ==> Delay(p, i) < TWO_TO_THE_64 - 1
      decreases p.maxAttempts - attempt
    {
      DelayNext(p, attempt - 1);
      var outcome := op(attempt - 1);
      if outcome.Ok? {
        return Returned(outcome), attempt, sleeps;
      }
      var lastAttempt := attempt >= p.maxAttempts;
      var overDeadline := elapsed(attempt - 1) + delay >= p.deadline;
      if !IsTransient(outcome.error) || lastAttempt || overDeadline {
        return Returned(outcome), attempt, sleeps;
      }
      var jittered := Jitter(delay, random(attempt - 1));
      if jittered.None? {
        DelayIsCapped(p, attempt - 1);
        return Panicked, attempt, sleeps;
      }
      Advance(p, op, elapsed, random, sleeps);
      sleeps := sleeps + [jittered.value];
      delay := Min(p.scale(delay), p.cap);
      attempt := attempt + 1;
    }
  }

  // ---- what the result means ----

  /** Ahead of the final call every call fails transiently, so a success is the first and an error the last. */
  lemma FirstSuccessOrLastError<T>(p: RetryPolicy, op: nat -> Result<T, Error>, elapsed: nat -> nat, last: nat)
    requires Final(p, op, elapsed, last)
    requires NoneFinal(p, op, elapsed, last)
    ensures forall i :: 0 <= i < last ==> op(i).Err? && IsTransient(op(i).error)
    ensures op(last).Ok? ==> forall i :: 0 <= i <= last && op(i).Ok? ==> i == last
    ensures op(last).Err? && IsTransient(op(last).error) ==>
      last + 1 >= p.maxAttempts || elapsed(last) + Delay(p, last) >= p.deadline
  {
    hide IsTransient;
    forall i | 0 <= i < last ensures op(i).Err? && IsTransient(op(i).error) {
      assert !Final(p, op, elapsed, i);
    }
  }

  /**
   * On an ideal clock, where a sleep lasts exactly as long as asked, retry `i + 1` starts at
   * `elapsed(i) + Jittered(Delay(p, i), random)`: strictly before the deadline.
   */
  lemma NoRetryAfterDeadline<T>(p: RetryPolicy, op: nat -> Result<T, Error>, elapsed: nat -> nat, i: nat, random: nat)
    requires !Final(p, op, elapsed, i)
    ensures elapsed(i) + Jittered(Delay(p, i), random) < p.deadline
  {
    hide IsTransient;
  }

  function Repeated(scale: nat -> nat, i: nat, d: nat): nat { if i == 0 then d else scale(Repeated(scale, i - 1, d)) }

  /** Rounding keeps the order of delays, and a delay at the cap does not shrink back under it. */
  ghost predicate Grows(p: RetryPolicy) {
    (forall a: nat, b: nat :: a <= b ==> p.scale(a) <= p.scale(b)) && p.scale(p.cap) >= p.cap
  }

  /** For any growing factor, rounding included, every delay after the first is the uncapped one, capped once. */
  lemma {:induction false} DelayIsCappedOnce(p: RetryPolicy, i: nat)
    requires Grows(p) && i > 0
    ensures Delay(p, i) == Min(Repeated(p.scale, i, p.base), p.cap)
  {
    if i == 1 {
      assert Delay(p, 0) == p.base == Repeated(p.scale, 0, p.base);
    } else {
      DelayIsCappedOnce(p, i - 1);
      var x := Repeated(p.scale, i - 1, p.base);
      assert x > p.cap ==> p.scale(x) >= p.scale(p.cap);
    }
  }

  function Power(factor: nat, e: nat): nat { if e == 0 then 1 else factor * Power(factor, e - 1) }

  lemma CappedProduct(x: nat, cap: nat, factor: nat)
    ensures Min(Min(x, cap) * factor, cap) == Min(x * factor, cap)
  {
    if x > cap && factor > 0 {
      assert cap * factor >= cap && x * factor >= cap * factor;
    }
  }

  lemma ProductStep(base: nat, power: nat, factor: nat)
    ensures base * power * factor == base * (factor * power)
  {}

  /** For a whole factor, every delay after the first is the geometric one, capped. */
  lemma {:induction false} DelayClosedForm(p: RetryPolicy, factor: nat, i: nat)
    requires forall d: nat :: p.scale(d) == d * factor
    requires i > 0
    ensures Delay(p, i) == Min(p.base * Power(factor, i), p.cap)
  {
    hide Min;
    ProductStep(p.base, Power(factor, i - 1), factor);
    if i == 1 {
      assert Power(factor, 0) == 1;
      assert Delay(p, 0) == p.base;
    } else {
      DelayClosedForm(p, factor, i - 1);
      CappedProduct(p.base * Power(factor, i - 1), p.cap, factor);
    }
  }

  function Sum(s: seq<nat>): nat { if s == [] then 0 else Sum(s[..|s| - 1]) + s[|s| - 1] }

  function Delays(p: RetryPolicy, n: nat): seq<nat> { seq(n, i requires 0 <= i => Delay(p, i)) }

  lemma {:induction false} SumMonotone(a: seq<nat>, b: seq<nat>)
    requires |a| <= |b| && forall i :: 0 <= i < |a| ==> a[i] <= b[i]
    ensures Sum(a) <= Sum(b)
    decreases |b|
  {
    if b != [] {
      if |a| == |b| {
        SumMonotone(a[..|a| - 1], b[..|b| - 1]);
      } else {
        SumMonotone(a, b[..|b| - 1]);
      }
    }
  }

  lemma DefaultDelays()
    ensures Delays(DefaultPolicy(), 7) == [100 * MILLISECOND, 200 * MILLISECOND, 400 * MILLISECOND, 800 * MILLISECOND,
      1600 * MILLISECOND, 3200 * MILLISECOND, 5000 * MILLISECOND]
  {
    var p := DefaultPolicy();
    assert Delay(p, 1) == 200 * MILLISECOND;
    assert Delay(p, 2) == 400 * MILLISECOND;
    assert Delay(p, 3) == 800 * MILLISECOND;
    assert Delay(p, 4) == 1600 * MILLISECOND;
    assert Delay(p, 5) == 3200 * MILLISECOND;
    assert Delay(p, 6) == 5000 * MILLISECOND;
  }

  /**
   * The default policy makes at most 7 sleeps, so never sleeps more than 11.3 seconds in all; and its delays
   * never reach the overflow of `jitter`.
   */
  lemma DefaultSleepsAreBounded(sleeps: seq<nat>, random: nat -> nat, i: nat)
    requires |sleeps| <= 7 && SleptJittered(DefaultPolicy(), random, sleeps)
    ensures Sum(sleeps) <= 11_300 * MILLISECOND
    ensures Delay(DefaultPolicy(), i) < TWO_TO_THE_64 - 1
  {
    var d := Delays(DefaultPolicy(), 7);
    forall i | 0 <= i < |sleeps| ensures sleeps[i] <= d[i] {
      assert sleeps[i] == Jittered(Delay(DefaultPolicy(), i), random(i));
    }
    SumMonotone(sleeps, d);
    DefaultDelays();
    SumOfSeven(d);
  }

  /** A call that blips every time and costs no time is made eight times under the default policy, on any clock it fits in. */
  lemma DefaultCalls<T>(op: nat -> Result<T, Error>, elapsed: nat -> nat)
    requires forall i: nat :: op(i).Err? && op(i).error.Transport?
    requires forall i: nat :: i < 7 ==> elapsed(i) < 115_000 * MILLISECOND
    ensures NoneFinal(DefaultPolicy(), op, elapsed, 7) && Final(DefaultPolicy(), op, elapsed, 7)
  {
    var p := DefaultPolicy();
    forall i: nat | i < 7 ensures !Final(p, op, elapsed, i) {
      DelayIsCapped(p, i);
    }
  }

  lemma SumOfSeven(s: seq<nat>)
    requires |s| == 7
    ensures Sum(s) == s[0] + s[1] + s[2] + s[3] + s[4] + s[5] + s[6]
  {
    assert Sum(s[..0]) == 0;
    forall k | 0 <= k < 7 ensures Sum(s[..k + 1]) == Sum(s[..k]) + s[k] {
      assert s[..k + 1][..k] == s[..k];
    }
    assert s[..7] == s;
  }
}
