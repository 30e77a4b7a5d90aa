/** The rows of the `cards` table and the read-only queries over them: the
    due-card query, the two counts and the quiz difficulty derived from the
    average repetition count. */
module Deck {
  import opened Wrappers
  import opened Sm2

  /** One row of the `cards` table; `nextReview` is a day number. */
  datatype Card = Card(id: nat, question: string, answer: string, progress: Progress, nextReview: int)

  /** The row an insert creates: default easiness factor, interval and
      repetition count, due at once. */
  function NewCard(id: nat, question: string, answer: string, now: int): (c: Card)
    ensures c.progress == Progress(250, 0, 0) && c.nextReview == now
    ensures c.id == id && c.question == question && c.answer == answer
  {
    Card(id, question, answer, Initial, now)
  }

  /** The row after a review: the four scheduling columns come from the SM-2
      rule, the identifier, question and answer are kept. */
  function Reviewed(c: Card, quality: int, now: int): (r: Card)
    requires IsQuality(quality)
    ensures r.id == c.id && r.question == c.question && r.answer == c.answer
    ensures r.progress.ef >= MinEf && r.nextReview == now + r.progress.interval
    ensures Update(r.progress, r.nextReview) == Schedule(c.progress, quality, now)
  {
    var u := Schedule(c.progress, quality, now);
    c.(progress := u.progress, nextReview := u.nextReview)
  }

  /** Position of the row with the given identifier, if any. */
  function Find(cards: seq<Card>, id: nat): (r: Option<nat>)
    ensures r.Some? ==> r.value < |cards| && cards[r.value].id == id
    ensures r.None? ==> forall k :: 0 <= k < |cards| ==> cards[k].id != id
  {
    if cards == [] then None
    else if cards[0].id == id then Some(0)
    else match Find(cards[1..], id)
      case None => None
      case Some(k) => Some(k + 1)
  }

  predicate IsDue(c: Card, now: int) {
    c.nextReview <= now
  }

  predicate SortedByReview(s: seq<Card>) {
    forall i, j :: 0 <= i < j < |s| ==> s[i].nextReview <= s[j].nextReview
  }

  /** The rows of the WHERE clause `next_review <= now`, in table order. */
  function DueRows(cards: seq<Card>, now: int): (r: seq<Card>)
    ensures forall c :: multiset(r)[c] == if IsDue(c, now) then multiset(cards)[c] else 0
  {
    if cards == [] then []
    else
      assert cards == [cards[0]] + cards[1..];
      if IsDue(cards[0], now) then [cards[0]] + DueRows(cards[1..], now)
      else DueRows(cards[1..], now)
  }

  /** Insert into a list sorted by `nextReview`, before any rows due on the
      same day. */
  function Insert(c: Card, s: seq<Card>): (r: seq<Card>)
    requires SortedByReview(s)
    ensures SortedByReview(r)
    ensures multiset(r) == multiset(s) + multiset{c}
    ensures forall x :: x in r ==> x == c || x in s
  {
    if s == [] then [c]
    else if c.nextReview <= s[0].nextReview then
      assert SortedByReview([c] + s) by { SortedPrepend(c, s); }
      [c] + s
    else
      var rest := Insert(c, s[1..]);
      assert s == [s[0]] + s[1..];
      assert SortedByReview([s[0]] + rest) by {
        assert rest[0] in rest;
        SortedPrepend(s[0], rest);
      }
      [s[0]] + rest
  }

  /** A row due no later than the head of a sorted list can go in front. */
  lemma SortedPrepend(x: Card, t: seq<Card>)
    requires SortedByReview(t) && (t != [] ==> x.nextReview <= t[0].nextReview)
    ensures SortedByReview([x] + t)
  {
    var r := [x] + t;
    forall i, j | 0 <= i < j < |r|
      ensures r[i].nextReview <= r[j].nextReview
    {
      if i == 0 {
        assert r[j] == t[j - 1];
      } else {
        assert r[i] == t[i - 1] && r[j] == t[j - 1];
      }
    }
  }

  /** The ORDER BY clause: ascending `nextReview`. */
  function SortByReview(s: seq<Card>): (r: seq<Card>)
    ensures SortedByReview(r)
    ensures multiset(r) == multiset(s)
  {
    if s == [] then []
    else
      assert s == [s[0]] + s[1..];
      Insert(s[0], SortByReview(s[1..]))
  }

  /** The due-card query: exactly the rows with `nextReview <= now`, each as
      often as it is stored, in ascending order of `nextReview`. */
  function DueCards(cards: seq<Card>, now: int): (r: seq<Card>)
    ensures SortedByReview(r)
    ensures forall c :: multiset(r)[c] == if IsDue(c, now) then multiset(cards)[c] else 0
    ensures forall c :: c in r <==> c in cards && IsDue(c, now)
  {
    SortByReview(DueRows(cards, now))
  }

  /** COUNT(*) over the rows with `nextReview <= now`. */
  function DueCount(cards: seq<Card>, now: int): nat {
    if cards == [] then 0
    else (if IsDue(cards[0], now) then 1 else 0) + DueCount(cards[1..], now)
  }

  /** The "cards due now" count equals the length of the due-card list. */
  lemma {:induction false} DueCountMatchesDueCards(cards: seq<Card>, now: int)
    ensures DueCount(cards, now) == |DueCards(cards, now)|
  {
    DueCountIsDueRows(cards, now);
    assert |DueCards(cards, now)| == |multiset(DueCards(cards, now))|;
    assert |DueRows(cards, now)| == |multiset(DueRows(cards, now))|;
  }

  lemma {:induction false} DueCountIsDueRows(cards: seq<Card>, now: int)
    ensures DueCount(cards, now) == |DueRows(cards, now)|
  {
    if cards != [] {
      DueCountIsDueRows(cards[1..], now);
    }
  }

  /** A freshly added card is returned by the due-card query at once. */
  lemma NewCardIsDue(cards: seq<Card>, id: nat, question: string, answer: string, now: int)
    ensures NewCard(id, question, answer, now) in DueCards(cards + [NewCard(id, question, answer, now)], now)
  {
    var c := NewCard(id, question, answer, now);
    assert (cards + [c])[|cards|] == c;
  }

  /** The three hints of the quiz generator. */
  datatype Difficulty = Easier | Medium | Harder

  function SumRepetitions(cards: seq<Card>): nat {
    if cards == [] then 0 else cards[0].progress.repetitions + SumRepetitions(cards[1..])
  }

  /** AVG(repetitions) over the table, with the empty table's NULL read as 0. */
  function MeanRepetitions(cards: seq<Card>): real {
    if |cards| == 0 then 0.0 else SumRepetitions(cards) as real / |cards| as real
  }

  /** Quiz difficulty from the average repetition count: harder from 3 on,
      medium from 1 on, easier below 1 and for an empty deck. Decided without
      division. */
  function QuizDifficulty(cards: seq<Card>): (d: Difficulty)
    ensures d == Harder <==> MeanRepetitions(cards) >= 3.0
    ensures d == Medium <==> 1.0 <= MeanRepetitions(cards) < 3.0
    ensures d == Easier <==> MeanRepetitions(cards) < 1.0
    ensures cards == [] ==> d == Easier
  {
    var total, count := SumRepetitions(cards), |cards|;
    assert count > 0 ==> (MeanRepetitions(cards) >= 3.0 <==> total >= 3 * count) by {
      MeanThreshold(total, count, 3);
    }
    assert count > 0 ==> (MeanRepetitions(cards) >= 1.0 <==> total >= count) by {
      MeanThreshold(total, count, 1);
    }
    if total >= 3 * count && count > 0 then Harder
    else if total >= count && count > 0 then Medium
    else Easier
  }

  lemma MeanThreshold(total: nat, count: nat, k: nat)
    ensures count > 0 ==> (total as real / count as real >= k as real <==> total >= k * count)
  {
    if count > 0 {
      var m := total as real / count as real;
      assert m * count as real == total as real;
      assert (k * count) as real == k as real * count as real;
    }
  }
}
