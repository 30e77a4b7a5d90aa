/** The card store: the `cards` table held in memory, with its
    auto-increment identifier counter. Each operation of the application on
    the table is a method here; the clock is passed in as a day number. */
module Store {
  import opened Wrappers
  import opened Sm2
  import opened Deck
  import opened FlashcardText

  /** The rows inserted for parsed flashcards: the k-th pair gets identifier
      `firstId + k` and the default scheduling state, due at `now`. */
  function FreshCards(firstId: nat, pairs: seq<Flashcard>, now: int): (r: seq<Card>)
    ensures |r| == |pairs|
    decreases pairs
  {
    if pairs == [] then []
    else [NewCard(firstId, pairs[0].question, pairs[0].answer, now)] + FreshCards(firstId + 1, pairs[1..], now)
  }

  /** The k-th pair becomes a default row with identifier `firstId + k`. */
  lemma {:induction false} FreshCardsAt(firstId: nat, pairs: seq<Flashcard>, now: int)
    ensures forall k :: 0 <= k < |pairs| ==>
              FreshCards(firstId, pairs, now)[k] == NewCard(firstId + k, pairs[k].question, pairs[k].answer, now)
    decreases pairs
  {
    if pairs != [] {
      FreshCardsAt(firstId + 1, pairs[1..], now);
    }
  }

  class CardStore {
    /** The rows of the table, in insertion order. */
    var cards: seq<Card>
    /** The identifier the next insert receives (AUTOINCREMENT). */
    var nextId: nat

    /** Identifiers are positive, increase with insertion order and stay below
        the counter, so none is ever handed out twice; every row's scheduling
        state is one that reviews of a new card can reach. */
    ghost predicate Valid()
      reads this
    {
      && nextId >= 1
      && (forall i, j :: 0 <= i < j < |cards| ==> cards[i].id < cards[j].id)
      && (forall i :: 0 <= i < |cards| ==> 1 <= cards[i].id < nextId)
      && (forall i :: 0 <= i < |cards| ==> Reachable(cards[i].progress))
    }

    /** An empty table whose first identifier will be 1. */
    constructor ()
      ensures Valid() && cards == [] && nextId == 1
    {
      cards := [];
      nextId := 1;
    }

    /** Inserts one card with a fresh identifier and the default scheduling
        state, due at `now`. */
    method AddCard(question: string, answer: string, now: int) returns (id: nat)
      requires Valid()
      modifies this
      ensures Valid()
      ensures id == old(nextId) && nextId == old(nextId) + 1
      ensures forall k :: 0 <= k < |old(cards)| ==> old(cards)[k].id != id
      ensures cards == old(cards) + [NewCard(id, question, answer, now)]
    {
      id := nextId;
      cards := cards + [NewCard(id, question, answer, now)];
      nextId := nextId + 1;
    }

    /** The cards due at `now`, longest-waiting first. */
    method GetDueCards(now: int) returns (due: seq<Card>)
      ensures due == DueCards(cards, now)
      ensures SortedByReview(due)
      ensures forall c :: c in due <==> c in cards && IsDue(c, now)
    {
      due := DueCards(cards, now);
    }

    /** The deck size. */
    method CountCards() returns (n: nat)
      ensures n == |cards|
    {
      n := |cards|;
    }

    /** The number of cards due at `now`, counted by its own query; it equals
        the length of the due-card list. */
    method CountDue(now: int) returns (n: nat)
      ensures n == |DueCards(cards, now)|
    {
      n := DueCount(cards, now);
      DueCountMatchesDueCards(cards, now);
    }

    /** The quiz difficulty from the average repetition count of the deck. */
    method AdaptiveDifficulty() returns (d: Difficulty)
      ensures d == Harder <==> MeanRepetitions(cards) >= 3.0
      ensures d == Medium <==> 1.0 <= MeanRepetitions(cards) < 3.0
      ensures d == Easier <==> MeanRepetitions(cards) < 1.0
    {
      d := QuizDifficulty(cards);
    }

    /** Records a review of the card `id`: its four scheduling columns are
        rewritten by the SM-2 rule, and nothing else changes. An identifier
        that is not in the table leaves the table as it is. */
    method ReviewCard(id: nat, quality: int, now: int)
      requires Valid() && IsQuality(quality)
      modifies this
      ensures Valid() && nextId == old(nextId) && |cards| == |old(cards)|
      ensures forall k :: 0 <= k < |cards| ==>
                cards[k] == if old(cards)[k].id == id then Reviewed(old(cards)[k], quality, now) else old(cards)[k]
      ensures (forall k :: 0 <= k < |old(cards)| ==> old(cards)[k].id != id) ==> cards == old(cards)
    {
      match Find(cards, id) {
        case None =>
        case Some(k) =>
          ScheduleKeepsReachable(cards[k].progress, quality, now);
          cards := cards[k := Reviewed(cards[k], quality, now)];
      }
    }

    /** Inserts the flashcards found in generated text: the text is cut into
        trimmed, non-blank lines, which are then scanned. */
    method AddFlashcards(text: string, now: int)
      requires Valid()
      modifies this
      ensures Valid()
      ensures nextId == old(nextId) + |Flashcards(text)|
      ensures cards == old(cards) + FreshCards(old(nextId), Flashcards(text), now)
      ensures forall k :: |old(cards)| <= k < |cards| ==> cards[k].question != "" && cards[k].answer != ""
    {
      var lines := CleanLines(text);
      AddScannedLines(lines, now);
      FlashcardsFromText(text);
      var added := Flashcards(text);
      FreshCardsAt(old(nextId), added, now);
      forall k | |old(cards)| <= k < |cards| ensures cards[k].question != "" && cards[k].answer != "" {
        var m := k - |old(cards)|;
        assert cards[k] == FreshCards(old(nextId), added, now)[m];
        assert added[m] in added;
      }
    }

    /** Reads the lines in order, remembering the latest question and answer,
        and inserts a card each time both are present. */
    method AddScannedLines(lines: seq<string>, now: int)
      requires Valid()
      modifies this
      ensures Valid()
      ensures nextId == old(nextId) + |Scan(lines, Empty)|
      ensures cards == old(cards) + FreshCards(old(nextId), Scan(lines, Empty), now)
    {
      var q, a := "", "";
      ghost var emitted: seq<Flashcard> := [];
      for i := 0 to |lines|
        invariant Valid()
        invariant emitted + Scan(lines[i..], Scanner(q, a)) == Scan(lines, Empty)
        invariant nextId == old(nextId) + |emitted|
        invariant cards == old(cards) + FreshCards(old(nextId), emitted, now)
      {
        ghost var s0, done, before, id0 := Scanner(q, a), emitted, cards, nextId;
        ScanAdvance(lines, i, emitted, s0);
        q, a := ReadLine(lines[i], q, a, now);
        var t := Absorb(s0, lines[i]);
        if Complete(t) {
          assert cards == before + [NewCard(id0, t.question, t.answer, now)];
          assert before == old(cards) + FreshCards(old(nextId), done, now);
          FreshCardsStep(old(cards), old(nextId), done, id0, t.question, t.answer, now);
          emitted := done + [Flashcard(t.question, t.answer)];
        } else {
          assert cards == before;
        }
      }
      assert lines[|lines|..] == [] && emitted + [] == emitted;
    }

    /** One pass of the loop body: the line updates the remembered question
        or answer, and once both are present a card is inserted and both are
        forgotten. */
    method ReadLine(line: string, q: string, a: string, now: int) returns (q': string, a': string)
      requires Valid()
      modifies this
      ensures Valid()
      ensures var t := Absorb(Scanner(q, a), line);
              if Complete(t) then
                && q' == "" && a' == ""
                && nextId == old(nextId) + 1
                && cards == old(cards) + [NewCard(old(nextId), t.question, t.answer, now)]
              else
                && Scanner(q', a') == t
                && nextId == old(nextId) && cards == old(cards)
    {
      q', a' := q, a;
      if IsQuestionLine(line) {
        q' := Field(line);
      } else if IsAnswerLine(line) {
        a' := Field(line);
      }
      if q' != "" && a' != "" {
        var _ := AddCard(q', a', now);
        q', a' := "", "";
      }
    }
  }

  /** One step of the scanner, as the loop of AddFlashcards takes it: the
      pairs still to come after line i are those after line i + 1, preceded
      by the pair line i completes, if any. */
  lemma ScanAdvance(lines: seq<string>, i: nat, emitted: seq<Flashcard>, s: Scanner)
    requires i < |lines|
    requires emitted + Scan(lines[i..], s) == Scan(lines, Empty)
    ensures var t := Absorb(s, lines[i]);
            if Complete(t) then (emitted + [Flashcard(t.question, t.answer)]) + Scan(lines[i + 1..], Empty) == Scan(lines, Empty)
            else emitted + Scan(lines[i + 1..], t) == Scan(lines, Empty)
  {
    assert lines[i..][0] == lines[i] && lines[i..][1..] == lines[i + 1..];
    var t := Absorb(s, lines[i]);
    if Complete(t) {
      assert Scan(lines[i..], s) == [Flashcard(t.question, t.answer)] + Scan(lines[i + 1..], Empty);
    } else {
      assert Scan(lines[i..], s) == Scan(lines[i + 1..], t);
    }
  }

  lemma AppendAssoc<T>(x: seq<T>, y: seq<T>, z: seq<T>)
    ensures x + (y + z) == (x + y) + z
  {
  }

  /** Appending the row for one more pair extends the rows inserted so far. */
  lemma FreshCardsStep(base: seq<Card>, firstId: nat, done: seq<Flashcard>, id: nat, question: string, answer: string, now: int)
    requires id == firstId + |done|
    ensures (base + FreshCards(firstId, done, now)) + [NewCard(id, question, answer, now)]
              == base + FreshCards(firstId, done + [Flashcard(question, answer)], now)
  {
    FreshCardsSnoc(firstId, done, Flashcard(question, answer), now);
    AppendAssoc(base, FreshCards(firstId, done, now), [NewCard(id, question, answer, now)]);
  }

  lemma FreshCardsSnoc(firstId: nat, pairs: seq<Flashcard>, f: Flashcard, now: int)
    ensures FreshCards(firstId, pairs + [f], now)
              == FreshCards(firstId, pairs, now) + [NewCard(firstId + |pairs|, f.question, f.answer, now)]
  {
    var l := FreshCards(firstId, pairs + [f], now);
    var r := FreshCards(firstId, pairs, now) + [NewCard(firstId + |pairs|, f.question, f.answer, now)];
    FreshCardsAt(firstId, pairs + [f], now);
    FreshCardsAt(firstId, pairs, now);
    assert |l| == |r|;
    forall k | 0 <= k < |l| ensures l[k] == r[k] {
      assert (pairs + [f])[k] == if k < |pairs| then pairs[k] else f;
    }
  }
}
