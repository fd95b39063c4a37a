/** Komodo's accrued interest: three functions that must agree on when accrual starts and stops. */
module KmdInterest {
  import opened Options

  datatype Reason =
    | UtxoAmountLessThanTen
    | LocktimeNotSet
    | LocktimeLessThanThreshold
    | TransactionInMempool
    | UtxoHeightGreaterThanEndOfEra
    | OneHourNotPassedYet

  datatype Result<+T> = Ok(value: T) | Err(reason: Reason)

  const KOMODO_ENDOFERA := 7_777_777
  const LOCKTIME_THRESHOLD := 500_000_000
  const YEAR_MINUTES := 365 * 24 * 60
  const MONTH_MINUTES := 31 * 24 * 60
  const U64_RANGE := 0x1_0000_0000_0000_0000

  /** Seconds and satoshis; all arguments are 64-bit values. */
  function Interest(height: Option<nat>, value: nat, lockTime: nat, currentTime: nat): Result<nat> {
    if value < 1_000_000_000 then Err(UtxoAmountLessThanTen)
    else if lockTime == 0 then Err(LocktimeNotSet)
    else if lockTime < LOCKTIME_THRESHOLD then Err(LocktimeLessThanThreshold)
    else match height
      case None => Err(TransactionInMempool)
      case Some(h) =>
        if h >= KOMODO_ENDOFERA then Err(UtxoHeightGreaterThanEndOfEra)
        else if currentTime < lockTime then Err(OneHourNotPassedYet)
        else
          var elapsed := (currentTime - lockTime) / 60;
          if elapsed < 60 then Err(OneHourNotPassedYet)
          else
            var upToYear := if elapsed > YEAR_MINUTES then YEAR_MINUTES else elapsed;
            var minutes := if h >= 1_000_000 && upToYear > MONTH_MINUTES then MONTH_MINUTES else upToYear;
            Ok(Accrued(value / 10_512_000, minutes - 59))
  }

  function Accrued(rate: nat, minutes: nat): nat {
    rate * minutes
  }

  function AccrueStopAt(height: nat, lockTime: nat): nat {
    lockTime + if height < 1_000_000 then 365 * 24 * 60 * 60 else 31 * 24 * 60 * 60
  }

  function AccrueStartAt(lockTime: nat): nat {
    lockTime + 60 * 60
  }

  /** An output that can accrue at all. */
  predicate Eligible(height: Option<nat>, value: nat, lockTime: nat) {
    height.Some? && height.value < KOMODO_ENDOFERA && value >= 1_000_000_000 && lockTime >= LOCKTIME_THRESHOLD
  }

  /** Minutes that count, between the start and the stop of accrual. */
  function Minutes(height: nat, lockTime: nat, currentTime: nat): nat
    requires currentTime >= AccrueStartAt(lockTime)
  {
    var until := if currentTime > AccrueStopAt(height, lockTime) then AccrueStopAt(height, lockTime) else currentTime;
    (until - lockTime) / 60 - 59
  }

  /** Refused exactly when not eligible or before the start, with the first reason that applies; otherwise
      the minutes up to the stop count. */
  lemma RefusedExactlyBeforeStart(height: Option<nat>, value: nat, lockTime: nat, currentTime: nat)
    ensures Interest(height, value, lockTime, currentTime).Ok? <==>
            Eligible(height, value, lockTime) && currentTime >= AccrueStartAt(lockTime)
    ensures Eligible(height, value, lockTime) && currentTime < AccrueStartAt(lockTime) ==>
            Interest(height, value, lockTime, currentTime) == Err(OneHourNotPassedYet)
    ensures var r := Interest(height, value, lockTime, currentTime);
            && (r == Err(UtxoAmountLessThanTen) <==> value < 1_000_000_000)
            && (r == Err(LocktimeNotSet) <==> value >= 1_000_000_000 && lockTime == 0)
            && (r == Err(LocktimeLessThanThreshold) <==> value >= 1_000_000_000 && 0 < lockTime < 500_000_000)
            && (r == Err(TransactionInMempool) <==> value >= 1_000_000_000 && lockTime >= 500_000_000 && height.None?)
            && (r == Err(UtxoHeightGreaterThanEndOfEra) <==>
                value >= 1_000_000_000 && lockTime >= 500_000_000 && height.Some? && height.value >= 7_777_777)
    ensures Eligible(height, value, lockTime) && currentTime >= AccrueStartAt(lockTime) ==>
            Interest(height, value, lockTime, currentTime) ==
            Ok((value / 10_512_000) * Minutes(height.value, lockTime, currentTime))
  {
    if Eligible(height, value, lockTime) && currentTime >= AccrueStartAt(lockTime) {
      MinutesAgree(height.value, lockTime, currentTime);
    }
  }

  /** Clamping the minutes is clamping the time at the stop. */
  lemma MinutesAgree(height: nat, lockTime: nat, currentTime: nat)
    requires currentTime >= AccrueStartAt(lockTime)
    ensures var elapsed := (currentTime - lockTime) / 60;
            var upToYear := if elapsed > YEAR_MINUTES then YEAR_MINUTES else elapsed;
            var minutes := if height >= 1_000_000 && upToYear > MONTH_MINUTES then MONTH_MINUTES else upToYear;
            elapsed >= 60 && minutes - 59 == Minutes(height, lockTime, currentTime)
  {
  }

  /** The values the repository's own tests expect: five minutes past the first hour, and both stops. */
  lemma KnownValues()
    ensures Interest(Some(1_000_001), 64_605_500_822, 1_556_623_906, 1_556_623_906 + 3600 + 300) == Ok(36_870)
    ensures Interest(Some(1_000_001), 64_605_500_822, 1_556_623_906, 1_556_623_905) == Err(OneHourNotPassedYet)
    ensures Interest(Some(1_000_001), 64_605_500_822, 1_556_623_906, 1_556_623_936) == Err(OneHourNotPassedYet)
    ensures AccrueStopAt(1_000_001, 1_595_845_640) == 1_595_845_640 + 31 * 24 * 60 * 60
    ensures AccrueStopAt(999_999, 1_595_845_640) == 1_595_845_640 + 365 * 24 * 60 * 60
  {
  }

  lemma Scale(rate: nat, a: nat, b: nat)
    requires a <= b
    ensures rate * a <= rate * b
    ensures rate > 0 && a < b ==> rate * a < rate * b
  {
  }

  lemma NeverFalls(height: Option<nat>, value: nat, lockTime: nat, earlier: nat, later: nat)
    requires earlier <= later && Interest(height, value, lockTime, earlier).Ok?
    ensures Interest(height, value, lockTime, later).Ok?
    ensures Interest(height, value, lockTime, earlier).value <= Interest(height, value, lockTime, later).value
  {
    RefusedExactlyBeforeStart(height, value, lockTime, earlier);
    RefusedExactlyBeforeStart(height, value, lockTime, later);
    Scale(value / 10_512_000, Minutes(height.value, lockTime, earlier), Minutes(height.value, lockTime, later));
  }

  /** The stop is exact: from there on nothing is added, and a second before there is still more to come. */
  lemma MaximalExactlyFromStop(height: Option<nat>, value: nat, lockTime: nat, currentTime: nat)
    requires Interest(height, value, lockTime, currentTime).Ok?
    ensures var stop := AccrueStopAt(height.value, lockTime);
            && Interest(height, value, lockTime, stop).Ok?
            && Interest(height, value, lockTime, currentTime).value <= Interest(height, value, lockTime, stop).value
            && (Interest(height, value, lockTime, currentTime) == Interest(height, value, lockTime, stop) <==> currentTime >= stop)
  {
    var stop := AccrueStopAt(height.value, lockTime);
    RefusedExactlyBeforeStart(height, value, lockTime, currentTime);
    RefusedExactlyBeforeStart(height, value, lockTime, stop);
    Scale(value / 10_512_000, Minutes(height.value, lockTime, currentTime), Minutes(height.value, lockTime, stop));
  }

  lemma RateBound(value: nat, rate: nat, minutes: nat)
    requires value >= 1_000_000_000 && rate == value / 10_512_000 && minutes <= YEAR_MINUTES - 59
    ensures 20 * (rate * minutes) < value
  {
    Scale(rate, minutes, YEAR_MINUTES - 59);
    assert rate * 10_512_000 <= value;
  }

  /** Below a twentieth of the value, hence within 64 bits whenever the value is. */
  lemma BelowOneTwentieth(height: Option<nat>, value: nat, lockTime: nat, currentTime: nat)
    requires Interest(height, value, lockTime, currentTime).Ok?
    ensures 20 * Interest(height, value, lockTime, currentTime).value < value
    ensures value < U64_RANGE ==> Interest(height, value, lockTime, currentTime).value < U64_RANGE
  {
    RefusedExactlyBeforeStart(height, value, lockTime, currentTime);
    RateBound(value, value / 10_512_000, Minutes(height.value, lockTime, currentTime));
  }

  lemma RatesAdd(a: nat, b: nat, minutes: nat)
    ensures ((a + b) / 10_512_000) * minutes >= (a / 10_512_000) * minutes + (b / 10_512_000) * minutes
  {
    Scale(minutes, a / 10_512_000 + b / 10_512_000, (a + b) / 10_512_000);
  }

  /** Merging two accruing outputs of one age never lowers the total. */
  lemma MergingNeverLowers(height: Option<nat>, a: nat, b: nat, lockTime: nat, currentTime: nat)
    requires Interest(height, a, lockTime, currentTime).Ok? && Interest(height, b, lockTime, currentTime).Ok?
    ensures Interest(height, a + b, lockTime, currentTime).Ok?
    ensures Interest(height, a + b, lockTime, currentTime).value >=
            Interest(height, a, lockTime, currentTime).value + Interest(height, b, lockTime, currentTime).value
  {
    RefusedExactlyBeforeStart(height, a, lockTime, currentTime);
    RefusedExactlyBeforeStart(height, b, lockTime, currentTime);
    RefusedExactlyBeforeStart(height, a + b, lockTime, currentTime);
    RatesAdd(a, b, Minutes(height.value, lockTime, currentTime));
  }
}
