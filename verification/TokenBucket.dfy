/** Token-bucket shaping in whole tokens and part-earned nanoseconds, with exact waiting times. */
module TokenBuckets {
  import opened Wrappers
  import opened Words

  const NANOS: nat := 1_000_000_000
  const U128_MAX: nat := 0xffff_ffff_ffff_ffff_ffff_ffff_ffff_ffff

  datatype ResourceError = Overflow | ExceedsContract
  datatype Bucket = Bucket(rate: u64, capacity: u64, tokens: u64, remainder: u64)

  function NewBucket(rate: u64, maximumCharge: u64): Bucket {
    var capacity := if rate > maximumCharge then rate else maximumCharge;
    Bucket(rate, capacity, capacity, 0)
  }

  /** Earned token-nanoseconds, counting what was part-earned before. */
  function Earned(b: Bucket, nanos: nat): nat {
    b.rate * nanos + b.remainder
  }

  /** The part-earned remainder moves even when the whole tokens do not fit 64 bits. */
  function Replenish(b: Bucket, nanos: nat): (Bucket, Result<(), ResourceError>)
    requires b.tokens <= b.capacity
  {
    var numerator := Earned(b, nanos);
    if numerator > U128_MAX then (b, Err(Overflow))
    else
      var earned := numerator / NANOS;
      var carried := b.(remainder := numerator % NANOS);
      if earned > U64_MAX then (carried, Err(Overflow))
      else if earned >= b.capacity - b.tokens then (carried.(tokens := b.capacity), Ok(()))
      else (carried.(tokens := b.tokens + earned), Ok(()))
  }

  function CeilDiv(n: nat, d: nat): nat
    requires d > 0
  {
    if n % d == 0 then n / d else n / d + 1
  }

  function Owed(b: Bucket, units: u64): nat
    requires units > b.tokens
  {
    var owed := (units - b.tokens) * NANOS;
    if owed < b.remainder then 0 else owed - b.remainder
  }

  /** How long until `units` can be charged: `None` means now. */
  function TimeUntil(b: Bucket, units: u64): Result<Option<u64>, ResourceError> {
    if units <= b.tokens then Ok(None)
    else if units > b.capacity || b.rate == 0 then Err(ExceedsContract)
    else
      var nanos := CeilDiv(Owed(b, units), b.rate);
      if nanos > U64_MAX then Err(Overflow) else Ok(Some(nanos))
  }

  function Charge(b: Bucket, units: u64): (Bucket, Result<(), ResourceError>) {
    if units > b.tokens then (b, Err(ExceedsContract)) else (b.(tokens := b.tokens - units), Ok(()))
  }

  ghost predicate Inv(b: Bucket) {
    b.tokens <= b.capacity && b.rate <= b.capacity && b.remainder < NANOS
  }

  // ---- Arithmetic --------------------------------------------------------------------------

  lemma {:induction false} CeilDivLeast(n: nat, d: nat)
    requires d > 0
    ensures n <= d * CeilDiv(n, d)
    ensures forall k: nat :: k < CeilDiv(n, d) ==> d * k < n
  {
    var q := n / d;
    assert n == d * q + n % d;
    forall k: nat | k < CeilDiv(n, d) ensures d * k < n {
      if n % d == 0 {
        MulOrder(d, k, q - 1);
        assert d * (q - 1) == d * q - d;
      } else {
        MulOrder(d, k, q);
      }
    }
    if n % d != 0 {
      assert d * (q + 1) == d * q + d;
    }
  }

  lemma {:induction false} MulOrder(d: nat, a: int, b: int)
    requires a <= b
    ensures d * a <= d * b
  {
  }

  lemma {:induction false} EarnedAdds(b: Bucket, x: nat, y: nat)
    ensures b.rate * (x + y) == b.rate * x + b.rate * y
  {
  }

  // ---- Exact waits -------------------------------------------------------------------------

  /** Below the ideal wait the deficit is never earned; at it, always. */
  lemma {:induction false} WaitIsExact(b: Bucket, units: u64, nanos: nat)
    requires Inv(b) && TimeUntil(b, units).Ok? && TimeUntil(b, units).value.Some?
    ensures nanos >= TimeUntil(b, units).value.value <==> Earned(b, nanos) / NANOS >= units - b.tokens
  {
    var owed := Owed(b, units);
    var wait := TimeUntil(b, units).value.value;
    var deficit := units - b.tokens;
    assert owed == deficit * NANOS - b.remainder;
    CeilDivLeast(owed, b.rate);
    if nanos >= wait {
      MulOrder(b.rate, wait, nanos);
      DivAtLeast(Earned(b, nanos), deficit);
    } else {
      assert b.rate * nanos < owed;
      DivBelow(Earned(b, nanos), deficit);
    }
  }

  lemma {:induction false} DivAtLeast(n: nat, q: nat)
    requires n >= q * NANOS
    ensures n / NANOS >= q
  {
  }

  lemma {:induction false} DivBelow(n: nat, q: nat)
    requires n < q * NANOS
    ensures n / NANOS < q
  {
  }

  /** One nanosecond less, or any less, is too short: nothing overflows and the charge is refused. */
  lemma {:induction false} ShorterWaitFails(b: Bucket, units: u64, nanos: nat)
    requires Inv(b) && TimeUntil(b, units).Ok? && TimeUntil(b, units).value.Some?
    requires nanos < TimeUntil(b, units).value.value
    ensures var (r, ok) := Replenish(b, nanos);
            ok.Ok? && Charge(r, units).1.Err?
  {
    WaitIsExact(b, units, nanos);
    NoWideOverflow(b, nanos);
  }

  lemma {:induction false} NoWideOverflow(b: Bucket, nanos: nat)
    requires Inv(b) && nanos <= U64_MAX
    ensures Earned(b, nanos) <= U128_MAX
  {
    MulOrder(b.rate, nanos, U64_MAX);
    MulOrder(U64_MAX, b.rate, U64_MAX);
    assert b.rate * U64_MAX == U64_MAX * b.rate;
    assert U64_MAX * U64_MAX + NANOS <= U128_MAX;
  }

  /** Waiting as long as told, or longer, is enough exactly when the whole tokens earned fit 64 bits. */
  lemma {:induction false} FullWaitSuffices(b: Bucket, units: u64, nanos: u64)
    requires Inv(b) && TimeUntil(b, units).Ok? && TimeUntil(b, units).value.Some?
    requires nanos >= TimeUntil(b, units).value.value
    ensures var (r, ok) := Replenish(b, nanos);
            (ok.Ok? <==> Earned(b, nanos) / NANOS <= U64_MAX) && (ok.Ok? ==> Charge(r, units).1.Ok?)
  {
    WaitIsExact(b, units, nanos);
    NoWideOverflow(b, nanos);
  }

  /** A rate within one token per nanosecond of the counter's end: the exact wait itself overflows. */
  lemma {:induction false} ExactWaitCanOverflow()
    ensures var b := Bucket(U64_MAX - 1, U64_MAX, 0, 0);
            Inv(b) && TimeUntil(b, U64_MAX) == Ok(Some(NANOS + 1)) && Replenish(b, NANOS + 1).1 == Err(Overflow)
  {
    var b := Bucket(U64_MAX - 1, U64_MAX, 0, 0);
    var owed := Owed(b, U64_MAX);
    assert owed == U64_MAX * NANOS;
    assert owed == (U64_MAX - 1) * NANOS + NANOS;
    QuotientIs(owed, U64_MAX - 1, NANOS, NANOS);
  }

  lemma {:induction false} QuotientIs(n: nat, d: nat, q: nat, r: nat)
    requires n == d * q + r && 0 < r < d
    ensures CeilDiv(n, d) == q + 1
  {
    var x, y := n / d, n % d;
    assert n == d * x + y && d * (q - 1) == d * q - d && d * (q + 1) == d * q + d;
    if x < q {
      MulOrder(d, x, q - 1);
    }
    if x > q {
      MulOrder(d, q + 1, x);
    }
    assert x == q;
  }

  /** A charge is possible now exactly when no wait is asked for. */
  lemma {:induction false} NoWaitMeansNow(b: Bucket, units: u64)
    ensures TimeUntil(b, units) == Ok(None) <==> Charge(b, units).1.Ok?
  {
  }

  // ---- Additivity --------------------------------------------------------------------------

  /** Whole tokens and a part come in; no quotient is left to take. */
  function Credited(b: Bucket, whole: nat, part: u64): (Bucket, Result<(), ResourceError>)
    requires b.tokens <= b.capacity
  {
    var carried := b.(remainder := part);
    if whole > U64_MAX then (carried, Err(Overflow))
    else (carried.(tokens := if whole >= b.capacity - b.tokens then b.capacity else b.tokens + whole), Ok(()))
  }

  lemma {:induction false} ReplenishCredits(b: Bucket, nanos: nat)
    requires Inv(b)
    ensures Replenish(b, nanos)
         == if Earned(b, nanos) > U128_MAX then (b, Err(Overflow))
            else Credited(b, Earned(b, nanos) / NANOS, Earned(b, nanos) % NANOS)
    ensures Inv(Replenish(b, nanos).0)
  {
    hide Earned;
  }

  /** One credit for both is two credits, and where one is refused two that are not fill the bucket. */
  lemma {:induction false} CreditsAdd(b: Bucket, first: nat, part: u64, second: nat, last: u64)
    requires Inv(b)
    ensures var m, once := Credited(b, first, part), Credited(b, first + second, last);
            var twice := Credited(m.0, second, last);
            if once.1.Ok? then m.1.Ok? && twice == once else m.1.Ok? && twice.1.Ok? ==> twice.0.tokens == b.capacity
  {
  }

  /** What both spans earn, cut into what the first earns whole and what the second completes. */
  lemma {:induction false} EarnedSplits(b: Bucket, x: nat, y: nat)
    requires Inv(b)
    ensures Earned(b, x) <= Earned(b, x + y)
    ensures Earned(b, x) <= U128_MAX ==>
              var rest := Earned(Replenish(b, x).0, y);
              Earned(b, x + y) / NANOS == Earned(b, x) / NANOS + rest / NANOS &&
              Earned(b, x + y) % NANOS == rest % NANOS && rest <= Earned(b, x + y)
  {
    hide Replenish; hide Earned;
    EarnedAfter(b, x, y);
    SplitQuotient(Earned(b, x), Earned(b, x + y) - Earned(b, x));
    PartIsLess(Earned(b, x));
  }

  lemma {:induction false} PartIsLess(n: nat)
    ensures n % NANOS <= n
  {
  }

  /** One call that fits: the first of two fits, and the second ends where the one does. */
  lemma {:induction false} FittingCallSplits(b: Bucket, x: nat, y: nat)
    requires Inv(b) && Replenish(b, x + y).1.Ok?
    ensures var m := Replenish(b, x);
            m.1.Ok? && Replenish(m.0, y) == Replenish(b, x + y)
  {
    hide Replenish; hide Earned;
    var m := Replenish(b, x);
    var rest := Earned(m.0, y);
    ReplenishCredits(b, x);
    ReplenishCredits(b, x + y);
    ReplenishCredits(m.0, y);
    EarnedSplits(b, x, y);
    CreditsAdd(b, Earned(b, x) / NANOS, Earned(b, x) % NANOS, rest / NANOS, rest % NANOS);
  }

  /** One call that overflows where two do not: it earns more tokens than 64 bits hold, and they fill the bucket. */
  lemma {:induction false} OverflowingCallFills(b: Bucket, x: nat, y: nat)
    requires Inv(b) && Replenish(b, x + y).1.Err?
    requires Replenish(b, x).1.Ok? && Replenish(Replenish(b, x).0, y).1.Ok?
    ensures Replenish(Replenish(b, x).0, y).0.tokens == b.capacity && Earned(b, x + y) / NANOS > U64_MAX
  {
    hide Replenish; hide Earned;
    var m := Replenish(b, x);
    var rest := Earned(m.0, y);
    ReplenishCredits(b, x);
    ReplenishCredits(b, x + y);
    ReplenishCredits(m.0, y);
    EarnedSplits(b, x, y);
    WideIsLong(Earned(b, x + y));
    CreditsAdd(b, Earned(b, x) / NANOS, Earned(b, x) % NANOS, rest / NANOS, rest % NANOS);
  }

  /**
   Replenishing twice is replenishing once for both spans, even across the cap. One call can only
   refuse what two accept when it earns more tokens than 64 bits hold, and then the two fill the bucket.
   */
  lemma {:induction false} ReplenishAdds(b: Bucket, x: nat, y: nat)
    requires Inv(b)
    ensures var m, once := Replenish(b, x), Replenish(b, x + y);
            var twice := Replenish(m.0, y);
            if once.1.Ok? then m.1.Ok? && twice == once
            else m.1.Ok? && twice.1.Ok? ==> twice.0.tokens == b.capacity && Earned(b, x + y) / NANOS > U64_MAX
  {
    hide Replenish; hide Earned;
    ReplenishCredits(b, x);
    if Replenish(b, x + y).1.Ok? {
      FittingCallSplits(b, x, y);
    } else if Replenish(b, x).1.Ok? && Replenish(Replenish(b, x).0, y).1.Ok? {
      OverflowingCallFills(b, x, y);
    }
  }

  lemma {:induction false} EarnedAfter(b: Bucket, x: nat, y: nat)
    requires Inv(b)
    ensures Earned(b, x + y) == Earned(b, x) + b.rate * y
    ensures Earned(b, x) <= U128_MAX ==> Earned(Replenish(b, x).0, y) == b.rate * y + Earned(b, x) % NANOS
  {
    EarnedAdds(b, x, y);
  }

  lemma {:induction false} WideIsLong(n: nat)
    ensures n > U128_MAX ==> n / NANOS > U64_MAX
  {
  }

  lemma {:induction false} SplitQuotient(n: nat, m: nat)
    ensures (n + m) / NANOS == n / NANOS + (n % NANOS + m) / NANOS
    ensures (n + m) % NANOS == (n % NANOS + m) % NANOS
  {
  }

  // ---- Runs --------------------------------------------------------------------------------

  datatype Op = Wait(nanos: nat) | Spend(units: u64)

  function Step(b: Bucket, op: Op): (Bucket, Result<(), ResourceError>)
    requires b.tokens <= b.capacity
  {
    match op
    case Wait(nanos) => Replenish(b, nanos)
    case Spend(units) => Charge(b, units)
  }

  /** Where a run ends, and how much it charged. */
  function After(b: Bucket, ops: seq<Op>): (r: (Bucket, nat))
    requires b.tokens <= b.capacity
    ensures r.0.tokens <= r.0.capacity == b.capacity && r.0.rate == b.rate
  {
    if ops == [] then (b, 0)
    else
      var (m, charged) := After(b, ops[..|ops| - 1]);
      var op := ops[|ops| - 1];
      var (r, ok) := Step(m, op);
      (r, if op.Spend? && ok.Ok? then charged + op.units else charged)
  }

  function Elapsed(ops: seq<Op>): nat {
    if ops == [] then 0
    else Elapsed(ops[..|ops| - 1]) + if ops[|ops| - 1].Wait? then ops[|ops| - 1].nanos else 0
  }

  /** Charged and held tokens, in token-nanoseconds, never outrun what was held and earned. */
  lemma {:induction false} PotentialBounded(b: Bucket, ops: seq<Op>)
    requires Inv(b)
    ensures var (r, charged) := After(b, ops);
            Inv(r) && (charged + r.tokens) * NANOS + r.remainder <= b.tokens * NANOS + b.remainder + b.rate * Elapsed(ops)
    decreases |ops|
  {
    if ops != [] {
      var front, op := ops[..|ops| - 1], ops[|ops| - 1];
      PotentialBounded(b, front);
      if op.Wait? {
        EarnedAdds(b, Elapsed(front), op.nanos);
        WaitPotential(After(b, front).0, op.nanos);
      }
    }
  }

  lemma {:induction false} WaitPotential(b: Bucket, nanos: nat)
    requires Inv(b)
    ensures var r := Replenish(b, nanos).0;
            Inv(r) && r.tokens * NANOS + r.remainder <= b.tokens * NANOS + Earned(b, nanos)
  {
    var numerator := Earned(b, nanos);
    assert numerator == numerator / NANOS * NANOS + numerator % NANOS;
  }

  /** In any run from a new bucket, failed calls included: at most the capacity plus the rate over the time waited. */
  lemma {:induction false} ChargesBounded(rate: u64, maximumCharge: u64, ops: seq<Op>)
    ensures var b := NewBucket(rate, maximumCharge);
            After(b, ops).1 <= b.capacity + rate * Elapsed(ops) / NANOS
  {
    hide After; hide Elapsed;
    var b := NewBucket(rate, maximumCharge);
    PotentialBounded(b, ops);
    ProductNat(rate, Elapsed(ops));
    BoundDivides(After(b, ops).1, b.capacity, rate * Elapsed(ops), After(b, ops).0.tokens, After(b, ops).0.remainder);
  }

  lemma {:induction false} ProductNat(a: nat, b: nat)
    ensures a * b >= 0
  {
  }

  lemma {:induction false} BoundDivides(charged: nat, capacity: nat, earned: nat, held: nat, part: nat)
    requires (charged + held) * NANOS + part <= capacity * NANOS + earned
    ensures charged <= capacity + earned / NANOS
  {
  }

  /** A charge refused for good is refused after every run of waits and charges. */
  lemma {:induction false} NeverMeansNever(b: Bucket, units: u64, ops: seq<Op>)
    requires Inv(b) && TimeUntil(b, units) == Err(ExceedsContract)
    ensures Charge(After(b, ops).0, units).1.Err?
  {
    PotentialBounded(b, ops);
    if b.rate == 0 {
      assert b.rate * Elapsed(ops) == 0;
    }
  }

  // ---- The object --------------------------------------------------------------------------

  class TokenBucket {
    const rate: u64
    const capacity: u64
    var tokens: u64
    var remainder: u64

    constructor (ratePerSecond: u64, maximumCharge: u64)
      ensures St() == NewBucket(ratePerSecond, maximumCharge) && Valid()
    {
      rate := ratePerSecond;
      capacity := if ratePerSecond > maximumCharge then ratePerSecond else maximumCharge;
      tokens := if ratePerSecond > maximumCharge then ratePerSecond else maximumCharge;
      remainder := 0;
    }

    ghost function St(): Bucket
      reads this
    {
      Bucket(rate, capacity, tokens, remainder)
    }

    ghost predicate Valid()
      reads this
    {
      Inv(St())
    }

    method Refill(nanos: nat) returns (r: Result<(), ResourceError>)
      requires Valid()
      modifies this
      ensures Valid() && (St(), r) == Replenish(old(St()), nanos)
    {
      var numerator := rate * nanos + remainder;
      if numerator > U128_MAX {
        return Err(Overflow);
      }
      var earned := numerator / NANOS;
      remainder := numerator % NANOS;
      if earned > U64_MAX {
        return Err(Overflow);
      }
      tokens := if earned >= capacity - tokens then capacity else tokens + earned;
      return Ok(());
    }

    method WaitFor(units: u64) returns (r: Result<Option<u64>, ResourceError>)
      requires Valid()
      ensures r == TimeUntil(St(), units)
    {
      if units <= tokens {
        return Ok(None);
      }
      if units > capacity || rate == 0 {
        return Err(ExceedsContract);
      }
      var owed := (units - tokens) * NANOS;
      owed := if owed < remainder then 0 else owed - remainder;
      var nanos := CeilDiv(owed, rate);
      if nanos > U64_MAX {
        return Err(Overflow);
      }
      return Ok(Some(nanos));
    }

    method Take(units: u64) returns (r: Result<(), ResourceError>)
      requires Valid()
      modifies this`tokens
      ensures Valid() && (St(), r) == Charge(old(St()), units)
    {
      if units > tokens {
        return Err(ExceedsContract);
      }
      tokens := tokens - units;
      return Ok(());
    }
  }
}
