/** The reading of generated flashcard text: the text is cut into trimmed,
    non-blank lines, and a scanner remembers the latest `Q:` text and the
    latest `A:` text, emitting a pair as soon as both are non-empty.
    A forgotten question or answer (Python's None) is the empty string here:
    the scanner only ever tests them for emptiness, so the two agree. */
module FlashcardText {

  /** Characters Python's str.splitlines() breaks a line at. */
  predicate IsLineBreak(c: char) {
    c == '\n' || c == '\r' || c == '\U{0B}' || c == '\U{0C}'
    || c == '\U{1C}' || c == '\U{1D}' || c == '\U{1E}' || c == '\U{85}'
    || c == '\U{2028}' || c == '\U{2029}'
  }

  /** Characters Python's str.strip() removes (str.isspace()). */
  predicate IsSpace(c: char) {
    ('\t' <= c <= '\r') || ('\U{1C}' <= c <= ' ') || c == '\U{85}' || c == '\U{A0}'
    || c == '\U{1680}' || ('\U{2000}' <= c <= '\U{200A}') || c == '\U{2028}' || c == '\U{2029}'
    || c == '\U{202F}' || c == '\U{205F}' || c == '\U{3000}'
  }

  predicate NoLineBreak(s: string) {
    forall i :: 0 <= i < |s| ==> !IsLineBreak(s[i])
  }

  /** The text cut at every line-break character. */
  function SplitLines(text: string): (r: seq<string>)
    ensures |r| >= 1
    ensures forall i :: 0 <= i < |r| ==> NoLineBreak(r[i])
  {
    if text == [] then [""]
    else
      var rest := SplitLines(text[1..]);
      if IsLineBreak(text[0]) then [""] + rest
      else [[text[0]] + rest[0]] + rest[1..]
  }

  /** The line-break characters of the text, in order. */
  function Breaks(text: string): string {
    if text == [] then []
    else (if IsLineBreak(text[0]) then [text[0]] else []) + Breaks(text[1..])
  }

  /** The pieces put back together, with the given break between each two. */
  function Interleave(pieces: seq<string>, seps: string): string
    requires |pieces| == |seps| + 1
  {
    if seps == [] then pieces[0]
    else pieces[0] + [seps[0]] + Interleave(pieces[1..], seps[1..])
  }

  /** Splitting loses nothing: there is one more piece than line breaks, and
      putting the breaks back between the pieces gives the text again. */
  lemma {:induction false} SplitLinesRoundTrip(text: string)
    ensures |SplitLines(text)| == |Breaks(text)| + 1
    ensures Interleave(SplitLines(text), Breaks(text)) == text
  {
    if text != [] {
      SplitLinesRoundTrip(text[1..]);
      var rest := SplitLines(text[1..]);
      var seps := Breaks(text[1..]);
      assert text == [text[0]] + text[1..];
      if IsLineBreak(text[0]) {
        assert Interleave(SplitLines(text), Breaks(text)) == "" + [text[0]] + Interleave(rest, seps);
      } else if seps == [] {
        assert Interleave(SplitLines(text), Breaks(text)) == [text[0]] + rest[0];
      } else {
        var pieces := SplitLines(text);
        assert pieces[0] == [text[0]] + rest[0] && pieces[1..] == rest[1..];
        assert Breaks(text) == seps;
        calc {
          Interleave(pieces, seps);
          ([text[0]] + rest[0]) + [seps[0]] + Interleave(rest[1..], seps[1..]);
          [text[0]] + (rest[0] + [seps[0]] + Interleave(rest[1..], seps[1..]));
          [text[0]] + Interleave(rest, seps);
        }
      }
    }
  }

  /** The text without its leading whitespace. */
  function TrimStart(s: string): (r: string)
    ensures |r| <= |s|
    ensures r == [] || !IsSpace(r[0])
  {
    if s != [] && IsSpace(s[0]) then TrimStart(s[1..]) else s
  }

  /** What TrimStart removes is a run of whitespace at the front. */
  lemma {:induction false} TrimStartDropsSpace(s: string)
    ensures TrimStart(s) == s[|s| - |TrimStart(s)|..]
    ensures forall i :: 0 <= i < |s| - |TrimStart(s)| ==> IsSpace(s[i])
  {
    if s != [] && IsSpace(s[0]) {
      TrimStartDropsSpace(s[1..]);
    }
  }

  /** The text without its trailing whitespace. */
  function TrimEnd(s: string): (r: string)
    ensures |r| <= |s|
    ensures r == [] || !IsSpace(r[|r| - 1])
  {
    if s != [] && IsSpace(s[|s| - 1]) then TrimEnd(s[..|s| - 1]) else s
  }

  /** What TrimEnd removes is a run of whitespace at the back. */
  lemma {:induction false} TrimEndDropsSpace(s: string)
    ensures TrimEnd(s) == s[..|TrimEnd(s)|]
    ensures forall i :: |TrimEnd(s)| <= i < |s| ==> IsSpace(s[i])
  {
    if s != [] && IsSpace(s[|s| - 1]) {
      TrimEndDropsSpace(s[..|s| - 1]);
    }
  }

  /** Python's str.strip(): whitespace removed from both ends. */
  function Strip(s: string): (r: string)
    ensures |r| <= |s|
    ensures r == [] || (!IsSpace(r[0]) && !IsSpace(r[|r| - 1]))
  {
    var t := TrimStart(s);
    assert TrimEnd(t) == t[..|TrimEnd(t)|] by { TrimEndDropsSpace(t); }
    TrimEnd(t)
  }

  /** Strip keeps a slice of the text and removes only whitespace around it. */
  lemma StripKeepsMiddle(s: string)
    ensures exists i, j :: 0 <= i <= j <= |s| && Strip(s) == s[i..j]
              && (forall k :: 0 <= k < i ==> IsSpace(s[k]))
              && (forall k :: j <= k < |s| ==> IsSpace(s[k]))
  {
    var t := TrimStart(s);
    var u := TrimEnd(t);
    TrimStartDropsSpace(s);
    TrimEndDropsSpace(t);
    assert Strip(s) == u;
    var i := |s| - |t|;
    var j := i + |u|;
    assert t == s[i..];
    assert u == t[..|u|];
    assert u == s[i..j];
    assert forall k :: 0 <= k < i ==> IsSpace(s[k]);
    forall k | j <= k < |s|
      ensures IsSpace(s[k])
    {
      assert s[k] == t[k - i];
    }
  }

  /** Stripping twice is stripping once. */
  lemma StripIdempotent(s: string)
    ensures Strip(Strip(s)) == Strip(s)
  {
    var r := Strip(s);
    assert TrimStart(r) == r;
    assert TrimEnd(r) == r;
  }

  /** The stripped pieces that are not blank, in order. */
  function NonBlank(pieces: seq<string>): (r: seq<string>)
    ensures forall i :: 0 <= i < |r| ==> r[i] != []
    ensures |r| <= |pieces|
  {
    if pieces == [] then []
    else
      var line := Strip(pieces[0]);
      var rest := NonBlank(pieces[1..]);
      if line != [] then [line] + rest else rest
  }

  /** The filter works piece by piece: a piece is kept, stripped, exactly
      when it is not blank, and the kept pieces stay in input order. */
  lemma NonBlankSingle(piece: string)
    ensures NonBlank([piece]) == if Strip(piece) != [] then [Strip(piece)] else []
  {
    assert [piece][1..] == [];
  }

  lemma {:induction false} NonBlankAppend(xs: seq<string>, ys: seq<string>)
    ensures NonBlank(xs + ys) == NonBlank(xs) + NonBlank(ys)
  {
    if xs == [] {
      assert xs + ys == ys;
    } else {
      assert (xs + ys)[0] == xs[0] && (xs + ys)[1..] == xs[1..] + ys;
      NonBlankAppend(xs[1..], ys);
    }
  }

  /** Each piece kept is already stripped. */
  lemma {:induction false} NonBlankStripped(pieces: seq<string>)
    ensures forall i :: 0 <= i < |NonBlank(pieces)| ==> Strip(NonBlank(pieces)[i]) == NonBlank(pieces)[i]
  {
    if pieces != [] {
      StripIdempotent(pieces[0]);
      NonBlankStripped(pieces[1..]);
    }
  }

  /** `[l.strip() for l in text.splitlines() if l.strip()]`. */
  function CleanLines(text: string): seq<string> {
    NonBlank(SplitLines(text))
  }

  /** The lines read from a text are non-empty, contain no line break and
      have no whitespace at either end. */
  lemma CleanLinesTrimmed(text: string)
    ensures forall i :: 0 <= i < |CleanLines(text)| ==>
              CleanLines(text)[i] != [] && Strip(CleanLines(text)[i]) == CleanLines(text)[i]
  {
    NonBlankStripped(SplitLines(text));
  }

  predicate IsQuestionLine(line: string) {
    |line| >= 2 && (line[..2] == "Q:" || line[..2] == "q:")
  }

  predicate IsAnswerLine(line: string) {
    |line| >= 2 && (line[..2] == "A:" || line[..2] == "a:")
  }

  /** `s.partition(":")[2]`: what follows the first colon, or nothing when
      there is no colon. */
  function AfterColon(s: string): string {
    if s == [] then []
    else if s[0] == ':' then s[1..]
    else AfterColon(s[1..])
  }

  /** AfterColon is the text after the first colon, and empty without one. */
  lemma {:induction false} AfterColonFollowsFirstColon(s: string)
    ensures ':' !in s ==> AfterColon(s) == []
    ensures ':' in s ==> exists i :: 0 <= i < |s| && s[i] == ':' && ':' !in s[..i] && AfterColon(s) == s[i + 1..]
  {
    if s == [] {
    } else if s[0] == ':' {
      assert ':' !in s[..0];
    } else {
      AfterColonFollowsFirstColon(s[1..]);
      assert s == [s[0]] + s[1..];
      if ':' in s[1..] {
        var i :| 0 <= i < |s[1..]| && s[1..][i] == ':' && ':' !in s[1..][..i] && AfterColon(s[1..]) == s[1..][i + 1..];
        assert s[..i + 1] == [s[0]] + s[1..][..i];
        assert s[i + 1] == ':' && AfterColon(s) == s[i + 2..];
      }
    }
  }

  /** On a `Q:` or `A:` line the first colon is the second character. */
  lemma FieldOfTaggedLine(line: string)
    requires IsQuestionLine(line) || IsAnswerLine(line)
    ensures Field(line) == Strip(line[2..])
  {
    assert line[0] != ':' && line[1] == ':' by {
      assert line[..2][0] == line[0] && line[..2][1] == line[1];
    }
    assert AfterColon(line) == AfterColon(line[1..]);
    assert line[1..][0] == ':' && line[1..][1..] == line[2..];
  }

  /** The text a `Q:` or `A:` line records. */
  function Field(line: string): string {
    Strip(AfterColon(line))
  }

  /** The scanner's two remembered texts; empty means none. */
  datatype Scanner = Scanner(question: string, answer: string)

  const Empty := Scanner("", "")

  datatype Flashcard = Flashcard(question: string, answer: string)

  /** Reading one line: a `Q:` line replaces the question, otherwise an `A:`
      line replaces the answer, anything else is ignored. */
  function Absorb(s: Scanner, line: string): Scanner {
    if IsQuestionLine(line) then s.(question := Field(line))
    else if IsAnswerLine(line) then s.(answer := Field(line))
    else s
  }

  predicate Complete(s: Scanner) {
    s.question != "" && s.answer != ""
  }

  /** The pairs the scanner emits reading `lines` from state `s`. */
  function Scan(lines: seq<string>, s: Scanner): seq<Flashcard> {
    if lines == [] then []
    else
      var t := Absorb(s, lines[0]);
      if Complete(t) then [Flashcard(t.question, t.answer)] + Scan(lines[1..], Empty)
      else Scan(lines[1..], t)
  }

  /** The pairs read from a generated text. */
  function Flashcards(text: string): seq<Flashcard> {
    Scan(CleanLines(text), Empty)
  }

  /** The texts recorded by the `Q:` lines. */
  function QuestionTexts(lines: seq<string>): set<string> {
    if lines == [] then {}
    else (if IsQuestionLine(lines[0]) then {Field(lines[0])} else {}) + QuestionTexts(lines[1..])
  }

  /** The texts recorded by the `A:` lines. */
  function AnswerTexts(lines: seq<string>): set<string> {
    if lines == [] then {}
    else (if IsAnswerLine(lines[0]) then {Field(lines[0])} else {}) + AnswerTexts(lines[1..])
  }

  function AnswerLineCount(lines: seq<string>): nat {
    if lines == [] then 0
    else (if IsAnswerLine(lines[0]) then 1 else 0) + AnswerLineCount(lines[1..])
  }

  /** What reading the first line leaves remembered was either remembered
      before or recorded by that line. */
  lemma AbsorbDrawn(lines: seq<string>, s: Scanner)
    requires lines != []
    ensures Absorb(s, lines[0]).question in QuestionTexts(lines) + {s.question}
    ensures Absorb(s, lines[0]).answer in AnswerTexts(lines) + {s.answer}
  {
  }

  /** A pair with a non-empty question and answer drawn from the given texts. */
  predicate DrawnFrom(f: Flashcard, questions: set<string>, answers: set<string>) {
    f.question != "" && f.answer != "" && f.question in questions && f.answer in answers
  }

  /** Every emitted pair has a non-empty question and answer, each the text of
      some `Q:` line (or `A:` line) read, or the one remembered at the start. */
  lemma {:induction false} ScanPairsFromLines(lines: seq<string>, s: Scanner)
    ensures forall f :: f in Scan(lines, s) ==>
              DrawnFrom(f, QuestionTexts(lines) + {s.question}, AnswerTexts(lines) + {s.answer})
  {
    if lines != [] {
      var t := Absorb(s, lines[0]);
      var qs, ans := QuestionTexts(lines) + {s.question}, AnswerTexts(lines) + {s.answer};
      AbsorbDrawn(lines, s);
      if Complete(t) {
        ScanPairsFromLines(lines[1..], Empty);
        forall f | f in Scan(lines, s) ensures DrawnFrom(f, qs, ans) {
          if f != Flashcard(t.question, t.answer) {
            assert f in Scan(lines[1..], Empty);
          }
        }
      } else {
        ScanPairsFromLines(lines[1..], t);
        assert Scan(lines, s) == Scan(lines[1..], t);
      }
    }
  }

  /** No more pairs are emitted than `A:` lines are read, plus one for an
      answer remembered at the start. */
  lemma {:induction false} ScanBoundedByAnswers(lines: seq<string>, s: Scanner)
    ensures |Scan(lines, s)| <= AnswerLineCount(lines) + (if s.answer != "" then 1 else 0)
  {
    if lines != [] {
      var t := Absorb(s, lines[0]);
      if Complete(t) {
        ScanBoundedByAnswers(lines[1..], Empty);
      } else {
        ScanBoundedByAnswers(lines[1..], t);
      }
    }
  }

  /** Pairs come out in input order: reading further lines only appends to
      what the earlier lines emitted. */
  lemma {:induction false} ScanExtends(xs: seq<string>, ys: seq<string>, s: Scanner)
    ensures Scan(xs, s) <= Scan(xs + ys, s)
  {
    if xs != [] {
      assert (xs + ys)[0] == xs[0] && (xs + ys)[1..] == xs[1..] + ys;
      var t := Absorb(s, xs[0]);
      if Complete(t) {
        ScanExtends(xs[1..], ys, Empty);
      } else {
        ScanExtends(xs[1..], ys, t);
      }
    }
  }

  /** What the flashcard generator's text yields: non-empty pairs whose
      questions and answers come from its `Q:` and `A:` lines, at most one
      per `A:` line. */
  lemma FlashcardsFromText(text: string)
    ensures forall f :: f in Flashcards(text) ==>
              DrawnFrom(f, QuestionTexts(CleanLines(text)), AnswerTexts(CleanLines(text)))
    ensures |Flashcards(text)| <= AnswerLineCount(CleanLines(text))
  {
    ScanPairsFromLines(CleanLines(text), Empty);
    ScanBoundedByAnswers(CleanLines(text), Empty);
  }
}
