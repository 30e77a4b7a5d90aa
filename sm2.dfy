/** The SuperMemo SM-2 update rule that reschedules one flashcard after a
    review. The easiness factor is kept exactly, as an integer number of
    hundredths (2.5 is 250, the floor 1.3 is 130); timestamps are whole days. */
module Sm2 {

  /** Easiness factor of a new card, in hundredths (2.5). */
  const InitialEf: int := 250
  /** Lowest easiness factor a review can produce, in hundredths (1.3). */
  const MinEf: int := 130

  /** The scheduling state of a card: easiness factor (hundredths), interval
      in days and number of consecutive successful reviews. */
  datatype Progress = Progress(ef: int, interval: nat, repetitions: nat)

  /** The four scheduling columns written back after a review. */
  datatype Update = Update(progress: Progress, nextReview: int)

  /** Scheduling state of a freshly inserted card. */
  const Initial: Progress := Progress(InitialEf, 0, 0)

  /** A recall quality the review slider can produce: 0 (blackout) to 5 (perfect). */
  predicate IsQuality(quality: int) {
    0 <= quality <= 5
  }

  /** Change of the easiness factor, in hundredths, for a given quality:
      0.1 - (5 - q) * (0.08 + (5 - q) * 0.02) scaled by 100. */
  function EfDelta(quality: int): (d: int)
    requires IsQuality(quality)
    ensures d == [-80, -54, -32, -14, 0, 10][quality]
  {
    var k := 5 - quality;
    10 - k * (8 + k * 2)
  }

  function Max(a: int, b: int): int {
    if a < b then b else a
  }

  /** Python's round() on an amount kept in hundredths: `n` stands for
      n / 100, and the result is the nearest integer, ties to the even
      neighbour. */
  function RoundHalfEven(n: nat): (r: nat)
    ensures 2 * (r * 100 - n) <= 100 && 2 * (n - r * 100) <= 100
    ensures (2 * (r * 100 - n) == 100 || 2 * (n - r * 100) == 100) ==> r % 2 == 0
  {
    var q := n / 100;
    var rem := n % 100;
    if 2 * rem < 100 then q
    else if 2 * rem > 100 then q + 1
    else if q % 2 == 0 then q
    else q + 1
  }

  /** The SM-2 step: new easiness factor with a floor of 1.3, reset on a
      lapse (quality below 3), intervals 1, 6, then round(interval * EF'),
      and the next review that many days after `now`. */
  function Schedule(p: Progress, quality: int, now: int): (u: Update)
    requires IsQuality(quality)
    ensures u.progress.ef >= MinEf
    ensures u.progress.ef == MinEf || u.progress.ef == p.ef + EfDelta(quality)
    ensures u.progress.ef >= p.ef + EfDelta(quality)
    ensures quality < 3 ==> u.progress.repetitions == 0 && u.progress.interval == 1
    ensures quality >= 3 ==> u.progress.repetitions == p.repetitions + 1
    ensures quality >= 3 && u.progress.repetitions == 1 ==> u.progress.interval == 1
    ensures quality >= 3 && u.progress.repetitions == 2 ==> u.progress.interval == 6
    ensures quality >= 3 && u.progress.repetitions >= 3 ==>
              && 2 * (u.progress.interval * 100 - p.interval * u.progress.ef) <= 100
              && 2 * (p.interval * u.progress.ef - u.progress.interval * 100) <= 100
    ensures quality >= 3 && u.progress.repetitions >= 3 &&
            (2 * (u.progress.interval * 100 - p.interval * u.progress.ef) == 100 ||
             2 * (p.interval * u.progress.ef - u.progress.interval * 100) == 100) ==>
              u.progress.interval % 2 == 0
    ensures u.nextReview == now + u.progress.interval
  {
    var ef := Max(MinEf, p.ef + EfDelta(quality));
    var progress :=
      if quality < 3 then
        Progress(ef, 1, 0)
      else if p.repetitions + 1 == 1 then
        Progress(ef, 1, 1)
      else if p.repetitions + 1 == 2 then
        Progress(ef, 6, 2)
      else
        Progress(ef, RoundHalfEven(p.interval * ef), p.repetitions + 1);
    Update(progress, now + progress.interval)
  }

  /** A successful review past the second never shortens the interval, since
      the easiness factor it multiplies by is at least 1.3. */
  lemma SuccessNeverShortens(p: Progress, quality: int, now: int)
    requires IsQuality(quality) && quality >= 3 && p.repetitions >= 2
    ensures Schedule(p, quality, now).progress.interval >= p.interval
  {
    MulMonotone(p.interval, MinEf, Schedule(p, quality, now).progress.ef);
  }

  /** Once the interval is at least 2 days, a successful review strictly
      lengthens it, since 1.3 * interval exceeds interval + 0.5. */
  lemma RoundGrows(interval: nat, ef: int)
    requires ef >= MinEf && interval >= 2
    ensures RoundHalfEven(interval * ef) > interval
  {
    MulMonotone(interval, MinEf, ef);
  }

  lemma MulMonotone(a: nat, b: int, c: int)
    requires b <= c
    ensures a * b <= a * c
  {
  }

  /** The easiness factor after a review never decreases as the quality
      rises, for a fixed prior state. */
  lemma EfMonotoneInQuality(p: Progress, q1: int, q2: int, now: int)
    requires IsQuality(q1) && IsQuality(q2) && q1 <= q2
    ensures Schedule(p, q1, now).progress.ef <= Schedule(p, q2, now).progress.ef
  {
  }

  /** The states a card can reach from `Initial` through reviews: the easiness
      factor is at least 1.3 once the card has been reviewed, and the interval
      is 0 or 1 before the first success, 1 after it, and at least 6 after two. */
  predicate Reachable(p: Progress) {
    && p.ef >= MinEf
    && (p.repetitions == 0 ==> p.interval <= 1)
    && (p.repetitions == 1 ==> p.interval == 1)
    && (p.repetitions >= 2 ==> p.interval >= 6)
  }

  /** Every review keeps a card within the reachable states and gives it an
      interval of at least one day; in particular the rule never multiplies a
      zero interval by the easiness factor. */
  lemma ScheduleKeepsReachable(p: Progress, quality: int, now: int)
    requires Reachable(p) && IsQuality(quality)
    ensures Reachable(Schedule(p, quality, now).progress)
    ensures Schedule(p, quality, now).progress.interval >= 1
  {
  }

  /** Past the second success, each further success strictly lengthens the
      interval of a reachable card. */
  lemma SuccessLengthensInterval(p: Progress, quality: int, now: int)
    requires Reachable(p) && IsQuality(quality) && quality >= 3 && p.repetitions >= 2
    ensures Schedule(p, quality, now).progress.interval > p.interval
  {
    RoundGrows(p.interval, Schedule(p, quality, now).progress.ef);
  }

  /** One review: a quality and the day on which it was given. */
  datatype Grade = Grade(quality: int, day: int)

  predicate AllQualities(grades: seq<Grade>) {
    forall i :: 0 <= i < |grades| ==> IsQuality(grades[i].quality)
  }

  /** The scheduling state after applying the reviews in order. */
  function Replay(p: Progress, grades: seq<Grade>): Progress
    requires AllQualities(grades)
    decreases grades
  {
    if grades == [] then p
    else Replay(Schedule(p, grades[0].quality, grades[0].day).progress, grades[1..])
  }

  /** Any history of reviews of a new card leaves it in a reachable state. */
  lemma {:induction false} ReplayFromInitialReachable(grades: seq<Grade>)
    requires AllQualities(grades)
    ensures Reachable(Replay(Initial, grades))
  {
    ReplayKeepsReachable(Initial, grades);
  }

  lemma {:induction false} ReplayKeepsReachable(p: Progress, grades: seq<Grade>)
    requires Reachable(p) && AllQualities(grades)
    ensures Reachable(Replay(p, grades))
    decreases grades
  {
    if grades != [] {
      ScheduleKeepsReachable(p, grades[0].quality, grades[0].day);
      ReplayKeepsReachable(Schedule(p, grades[0].quality, grades[0].day).progress, grades[1..]);
    }
  }

  /** A new card reviewed perfectly on day 0, then on each due day: intervals
      1, 6 and round(6 * 2.8) = 17, so it is next due on days 1, 7 and 24. */
  lemma ThreePerfectReviews()
    ensures Schedule(Initial, 5, 0) == Update(Progress(260, 1, 1), 1)
    ensures Schedule(Progress(260, 1, 1), 5, 1) == Update(Progress(270, 6, 2), 7)
    ensures Schedule(Progress(270, 6, 2), 5, 7) == Update(Progress(280, 17, 3), 24)
  {
  }

  /** A history that reaches an exact tie: qualities 3, 3, 3, 4 on the due
      days give (2.08, 25 days, 4), and a fifth review with quality 3 gives
      25 * 1.94 = 48.5, which rounds to the even 48. */
  lemma TieRoundsToEven()
    ensures Replay(Initial, [Grade(3, 0), Grade(3, 1), Grade(3, 7), Grade(4, 19)]) == Progress(208, 25, 4)
    ensures Schedule(Progress(208, 25, 4), 3, 44) == Update(Progress(194, 48, 5), 92)
  {
  }

  /** A lapse on a well-learnt card resets it to a one-day interval and lowers
      the easiness factor from 2.0 to 1.46. */
  lemma LapseScenario(now: int)
    ensures Schedule(Progress(200, 20, 5), 1, now) == Update(Progress(146, 1, 0), now + 1)
  {
  }
}
