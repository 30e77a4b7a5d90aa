# Study-mode spaced repetition: a Dafny model

This project models the spaced-repetition core of the study-assistant
application in `study_mode_app.py`:

- the SM-2 update rule run after each review (`update_card_after_review`);
- the `cards` table, kept in memory: inserting a card with
  auto-increment identifiers, the due-card query, the deck-size and due-now
  counts, and writing a review back to one row;
- the reading of generated flashcard text (`Q:` / `A:` lines) into cards;
- the quiz difficulty chosen from the average repetition count.

Modules:

- `Sm2` (`sm2.dfy`) holds the pure SM-2 rule, `Schedule`. The easiness
  factor is held exactly, as an integer number of hundredths: 2.5 is 250
  and the floor 1.3 is 130. The quality deltas are +10, 0, -14, -32, -54
  and -80 hundredths for qualities 5 down to 0. Python's `round` is
  modelled as round-half-to-even on the exact product interval × EF. The
  module also defines the states that reviews of a new card can reach, and
  proves that every review stays inside them.
- `Deck` (`deck.dfy`) holds the table rows and the read-only queries over
  them, as pure functions. These are the `WHERE next_review <= ?` filter,
  the `ORDER BY next_review ASC` sort, the due-now `COUNT(*)` query and the
  `AVG(repetitions)` difficulty thresholds. The deck-size count is
  `Store.CardStore.CountCards`.
- `FlashcardText` (`flashcard_text.dfy`) specifies the parsing of
  generated text. It covers `splitlines`, `strip`,
  `partition(":")[2]` and the question/answer scanner, as functions,
  with lemmas about what the scanner emits.
- `Store` (`store.dfy`) holds the class `CardStore`. Its fields are the
  table's rows and the auto-increment counter. Its methods are the
  application's operations on the table. The scanning loop runs as a
  method with loop invariants tying it to the scanner function.
- `Wrappers` (`wrappers.dfy`) holds an `Option` type for row lookups.

Timestamps are whole day numbers, and the current time is always a
parameter (`now`).

Where common descriptions of SM-2 and the code disagree, the model
follows the code:

- Descriptions of SM-2 often guard the case of a zero interval at the
  third or later success. The code does not: it multiplies the zero and
  gets 0. The model does the same, and `Sm2.ScheduleKeepsReachable`
  proves that no card created by `add_card` can ever reach that case.
- `add_card` neither rejects empty questions nor de-duplicates. The model
  does neither.
- An unknown card identifier makes `update_card_after_review` return
  silently. It raises no error.
- A commonly quoted worked example of three perfect reviews ends with EF
  2.6 and interval 16, due on day 23. The code raises EF by 0.1 on every
  review with quality 5, so the third review gives EF 2.8 and interval
  round(16.8) = 17, due on day 24. `Sm2.ThreePerfectReviews` states the
  code's values.

## Model

| member | source | states |
|---|---|---|
| `Sm2.EfDelta` | study_mode_app.py:116 | the easiness change for quality q is 0.1 - (5-q)(0.08 + 0.02(5-q)): -0.80, -0.54, -0.32, -0.14, 0, +0.10 for q = 0..5 |
| `Sm2.RoundHalfEven` | study_mode_app.py:127 | Python's round on an amount in hundredths: the result is within half a unit of it, and an exact tie goes to the even neighbour |
| `Sm2.Schedule` | study_mode_app.py:114-128 | new EF is max(1.3, EF + delta) and never below 1.3. A lapse (q < 3) gives 0 repetitions and a 1-day interval. A success adds exactly one repetition, with interval 1 at the first, 6 at the second, and otherwise the nearest integer to interval × EF', an exact half going to the even neighbour as Python's round does. The next review is now + interval' |
| `Sm2.SuccessNeverShortens` | study_mode_app.py:120-127 | past the second success, the new interval is never shorter than the old one, because EF' is at least 1.3 |
| `Sm2.RoundGrows` | study_mode_app.py:127 | rounding interval × EF with EF at least 1.3 strictly exceeds an interval of 2 days or more |
| `Sm2.EfMonotoneInQuality` | study_mode_app.py:116 | for a fixed prior state, the new EF is non-decreasing in the quality |
| `Sm2.ScheduleKeepsReachable` | study_mode_app.py:114-127 | from any state reachable from a new card, a review leads to a reachable state with an interval of at least one day. Reachable states past the second success have an interval of at least 6, so the multiplication at the third or later success never sees 0 |
| `Sm2.SuccessLengthensInterval` | study_mode_app.py:120-127 | for a reachable card past its second success, another success strictly lengthens the interval |
| `Sm2.ReplayKeepsReachable` | study_mode_app.py:114-127 | any sequence of valid reviews keeps a reachable state reachable |
| `Sm2.ReplayFromInitialReachable` | study_mode_app.py:114-127 | any history of reviews of a card created with (2.5, 0, 0) leaves it reachable |
| `Sm2.ThreePerfectReviews` | study_mode_app.py:114-128 | three perfect reviews of a new card on days 0, 1 and 7 give intervals 1, 6 and 17, and due days 1, 7 and 24 |
| `Sm2.TieRoundsToEven` | study_mode_app.py:114-128 | the reviews 3, 3, 3, 4 of a new card on its due days reach (2.08, 25, 4); a further quality-3 review computes 25 × 1.94 = 48.5 and rounds it to 48, due on day 92 |
| `Sm2.Replay` | study_mode_app.py:114-128 | applies the update rule to a sequence of reviews in order; what it preserves is stated by `Sm2.ReplayKeepsReachable` and `Sm2.ReplayFromInitialReachable` |
| `Sm2.LapseScenario` | study_mode_app.py:116-119 | a lapse with quality 1 on (EF 2.0, interval 20, 5 repetitions) gives (1.46, 1, 0), due the next day |
| `Deck.NewCard` | study_mode_app.py:85-89 | an inserted row has EF 2.5, interval 0, 0 repetitions and is due at the insertion time, with the given question and answer |
| `Deck.Reviewed` | study_mode_app.py:128-130 | a reviewed row keeps its id, question and answer, and its four scheduling columns are exactly the SM-2 result of `Sm2.Schedule`; its EF is at least 1.3 and it is due interval' days after the review |
| `Deck.Find` | study_mode_app.py:109-111 | the row lookup by id finds a row with that id, or reports that no row has it |
| `Deck.DueRows` | study_mode_app.py:97 | the WHERE clause keeps each due row as often as it is stored and drops every row not yet due |
| `Deck.Insert` | study_mode_app.py:97 | inserting a row into a list sorted by next review keeps it sorted and adds exactly that row |
| `Deck.SortByReview` | study_mode_app.py:97 | ORDER BY next_review ASC: the result is sorted ascending and is a permutation of its input |
| `Deck.DueCards` | study_mode_app.py:93-100 | the due-card query returns exactly the rows with next_review <= now, each as often as stored, in ascending order of next_review |
| `Deck.DueCount` | study_mode_app.py:343-344 | COUNT(*) of the rows with next_review <= now, one by one; `Deck.DueCountMatchesDueCards` states its value |
| `Deck.DueCountMatchesDueCards` | study_mode_app.py:343-344 | the "cards due now" count equals the number of cards the due-card query returns |
| `Deck.NewCardIsDue` | study_mode_app.py:85-97 | a freshly inserted card is returned by the due-card query at once |
| `Deck.MeanRepetitions` | study_mode_app.py:298-300 | AVG(repetitions) as an exact real, with the empty table's NULL read as 0; `Deck.QuizDifficulty` states the thresholds on it |
| `Deck.QuizDifficulty` | study_mode_app.py:298-308 | the hint is "harder" iff the average repetition count is at least 3, "medium" iff it is in [1, 3), and "easier" otherwise, including the empty deck whose NULL average counts as 0 |
| `FlashcardText.SplitLines` | study_mode_app.py:269 | splitting yields at least one piece, and no piece contains a line break |
| `FlashcardText.SplitLinesRoundTrip` | study_mode_app.py:269 | splitting loses nothing: there is one more piece than line breaks, and re-inserting the breaks rebuilds the text |
| `FlashcardText.Strip` | study_mode_app.py:269 | a stripped text is no longer than the original, and it neither starts nor ends with whitespace |
| `FlashcardText.StripKeepsMiddle` | study_mode_app.py:269 | strip returns a contiguous slice of the text and removes only whitespace on either side of it |
| `FlashcardText.StripIdempotent` | study_mode_app.py:269 | stripping an already stripped text changes nothing |
| `FlashcardText.NonBlank` | study_mode_app.py:269 | the comprehension keeps only non-empty stripped lines, never more than there were pieces |
| `FlashcardText.NonBlankSingle` | study_mode_app.py:269 | a single piece is kept, stripped, exactly when its stripped form is not empty |
| `FlashcardText.NonBlankAppend` | study_mode_app.py:269 | the filter works piece by piece: filtering a concatenation is the concatenation of the filtered parts, so every non-blank piece is kept, in order |
| `FlashcardText.CleanLines` | study_mode_app.py:269 | the list comprehension over `splitlines`; its lines are stated by `FlashcardText.CleanLinesTrimmed` |
| `FlashcardText.CleanLinesTrimmed` | study_mode_app.py:269 | every line handed to the scanner is non-empty and already stripped |
| `FlashcardText.AfterColonFollowsFirstColon` | study_mode_app.py:273 | partition(":")[2] is the text after the first colon, and empty when there is none |
| `FlashcardText.AfterColon` | study_mode_app.py:273 | `partition(":")[2]`; stated by `FlashcardText.AfterColonFollowsFirstColon` |
| `FlashcardText.Field` | study_mode_app.py:273-275 | the stripped text after the first colon; stated by `FlashcardText.FieldOfTaggedLine` |
| `FlashcardText.FieldOfTaggedLine` | study_mode_app.py:272-275 | on a `Q:`/`q:`/`A:`/`a:` line, the recorded text is the stripped remainder after the two-character tag |
| `FlashcardText.Absorb` | study_mode_app.py:272-275 | one line read by the scanner: a `Q:` line replaces the question, an `A:` line the answer, any other line changes nothing; stated by `FlashcardText.AbsorbDrawn` |
| `FlashcardText.Scan` | study_mode_app.py:270-278 | the scanning loop as a function: emits a pair and forgets both texts whenever both are present; stated by `FlashcardText.ScanPairsFromLines`, `FlashcardText.ScanBoundedByAnswers` and `FlashcardText.ScanExtends` |
| `FlashcardText.AbsorbDrawn` | study_mode_app.py:272-275 | after reading a line, the remembered question (or answer) is either the one held before or the text of that `Q:` (or `A:`) line |
| `FlashcardText.ScanPairsFromLines` | study_mode_app.py:270-278 | every emitted pair has a non-empty question and answer, each recorded from some `Q:` or `A:` line read, or already held at the start |
| `FlashcardText.ScanBoundedByAnswers` | study_mode_app.py:270-278 | no more pairs are emitted than there are `A:` lines, plus one for an answer already held |
| `FlashcardText.ScanExtends` | study_mode_app.py:270-278 | pairs come out in input order: reading more lines only appends to the pairs emitted so far |
| `FlashcardText.Flashcards` | study_mode_app.py:269-278 | the pairs read from a whole generated text; stated by `FlashcardText.FlashcardsFromText` |
| `FlashcardText.FlashcardsFromText` | study_mode_app.py:269-278 | from a generated text, every card has a non-empty question and answer taken from its `Q:` and `A:` lines, and there are at most as many cards as `A:` lines |
| `Store.FreshCards` | study_mode_app.py:276-277 | the rows inserted for a list of parsed pairs, one per pair; their contents are stated by `Store.FreshCardsAt` |
| `Store.FreshCardsAt` | study_mode_app.py:276-277 | the k-th parsed pair becomes a default row with the k-th next identifier |
| `Store.ScanAdvance` | study_mode_app.py:271-278 | one loop step: the pairs still to come after a line are those after the next line, preceded by the pair the line completes |
| `Store.CardStore.constructor` | study_mode_app.py:68-83 | a new table is empty and its first identifier is 1 |
| `Store.CardStore.AddCard` | study_mode_app.py:85-91 | appends exactly one default row whose identifier is the counter's value, unused by any earlier row. The counter goes up by one, the deck grows by one, and the store's invariant is kept |
| `Store.CardStore.GetDueCards` | study_mode_app.py:93-100 | returns the due rows, sorted ascending by next review, containing exactly the stored cards that are due |
| `Store.CardStore.CountCards` | study_mode_app.py:282-285 | the deck size is the number of rows |
| `Store.CardStore.CountDue` | study_mode_app.py:341-344 | the due-now count, computed by its own count, equals the length of the due-card list |
| `Store.CardStore.AdaptiveDifficulty` | study_mode_app.py:296-308 | the quiz hint of the current deck follows the thresholds 3 and 1 on the mean repetition count |
| `Store.CardStore.ReviewCard` | study_mode_app.py:102-132 | only the row with the given id changes, and only in its four scheduling fields, to the SM-2 result. Every other row and the counter are unchanged. An unknown id leaves the table as it was. Identifiers stay unique and every row stays in a reachable SM-2 state |
| `Store.CardStore.ReadLine` | study_mode_app.py:272-278 | one pass of the loop body: the line updates the remembered question or answer as the scanner does; when both are then present, exactly one default row with the next identifier is appended and both are forgotten; otherwise the table is untouched |
| `Store.CardStore.AddScannedLines` | study_mode_app.py:270-278 | the scanning loop inserts, in order, one default row per pair the scanner emits, with consecutive fresh identifiers |
| `Store.CardStore.AddFlashcards` | study_mode_app.py:268-278 | inserts exactly the cards parsed from the generated text, in order, each with a non-empty question and answer |

## Left out

- SQLite connections, the SQL text and `init_db` (study_mode_app.py:68-83) are replaced by the in-memory `CardStore`; persistence and storage errors are not modelled.
- `datetime.utcnow()` and ISO-8601 strings are replaced by integer day numbers passed in as `now`; comparing ISO strings as text is taken to agree with comparing times.
- Floating point: EF is exact to the hundredth and the rounding is exact round-half-to-even. Python's binary floats can land just off a tie and round the other way.
- Python's `splitlines` treats `\r\n` as one break and drops a final empty piece. The model breaks at every line-break character separately. This gives the same lines once blank lines are filtered out, which the code always does.
- `ORDER BY next_review` leaves the order of rows due at the same moment open. The model's sort keeps table order among them, and its contracts promise only sortedness and the exact multiset of due rows.
- `Sm2.Schedule` requires a quality in 0..5. The code does not check it, but its only caller passes the value of a slider limited to 0..5 (study_mode_app.py:331).
- The Streamlit interface, session state and chat history (study_mode_app.py:192-360) are presentation only.
- The generative-language API client (study_mode_app.py:162-187) is a network call. The text it returns is the input of `AddFlashcards`.
- `extract_text_from_file` (study_mode_app.py:140-157) wraps PDF and word-processor libraries that are not part of this model.
