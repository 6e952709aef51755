/** The quiz session: one flashcard at a time, with a reveal, a self-reported
    verdict and a move to the next card, and running totals of the verdicts.
    The session's record is a value (`Session`) where it is created and read,
    and an object (`QuizState`) whose fields the button handlers update in
    place. Each handler is specified by a function from the old record to the
    new record and the reply; the methods of `QuizState` are proved against
    these functions, and the invariants are proved about the functions. */
module Quiz {

  /** A flashcard as the quiz stores it: a dictionary from field name
      ("question", "answer", "type", "difficulty") to text. */
  type CardDict = map<string, string>

  /** `card.get(key, "")`: a missing field reads as the empty text. */
  function Field(card: CardDict, key: string): string {
    if key in card then card[key] else ""
  }

  /** One line of the session history: the card's fields and the verdict. */
  datatype Entry = Entry(question: string, answer: string, kind: string, difficulty: string, result: string)

  /** The history line written when `card` is marked. */
  function EntryFor(card: CardDict, isCorrect: bool): (e: Entry)
    ensures e.question == Field(card, "question") && e.answer == Field(card, "answer")
    ensures e.kind == Field(card, "type") && e.difficulty == Field(card, "difficulty")
    ensures e.result == "correct" <==> isCorrect
    ensures e.result == "incorrect" <==> !isCorrect
  {
    assert "incorrect"[0] != "correct"[0];
    Entry(Field(card, "question"), Field(card, "answer"), Field(card, "type"),
          Field(card, "difficulty"), if isCorrect then "correct" else "incorrect")
  }

  /** The quiz record, field for field. */
  datatype Session = Session(
    cards: seq<CardDict>,
    idx: int,
    revealed: bool,
    marked: bool,
    correct: int,
    incorrect: int,
    answered: int,
    history: seq<Entry>,
    finished: bool)

  // ---------------------------------------------------------------------------
  // The counting invariant

  /** The number of history lines whose verdict is `result`. */
  function Count(history: seq<Entry>, result: string): (n: nat)
    ensures n <= |history|
  {
    if |history| == 0 then 0
    else Count(history[..|history| - 1], result) + (if history[|history| - 1].result == result then 1 else 0)
  }

  lemma {:induction false} CountAppend(history: seq<Entry>, e: Entry, result: string)
    ensures Count(history + [e], result) == Count(history, result) + (if e.result == result then 1 else 0)
  {
    assert (history + [e])[..|history|] == history;
  }

  /** Every verdict in the history is "correct" or "incorrect". */
  predicate Verdicts(history: seq<Entry>) {
    forall k :: 0 <= k < |history| ==> history[k].result in {"correct", "incorrect"}
  }

  /** The totals agree with the history: `correct` and `incorrect` count its
      verdicts and `answered` is its length. */
  predicate Consistent(s: Session) {
    && Verdicts(s.history)
    && s.correct == Count(s.history, "correct")
    && s.incorrect == Count(s.history, "incorrect")
    && s.answered == |s.history|
  }

  /** Each history line has exactly one of the two verdicts, so the two verdict
      counts add up to the length of the history. */
  lemma {:induction false} VerdictsAddUp(history: seq<Entry>)
    requires Verdicts(history)
    ensures Count(history, "correct") + Count(history, "incorrect") == |history|
  {
    if |history| > 0 {
      var init := history[..|history| - 1];
      assert Verdicts(init) by {
        forall k | 0 <= k < |init| ensures init[k].result in {"correct", "incorrect"} {
          assert init[k] == history[k];
        }
      }
      VerdictsAddUp(init);
      assert history[|history| - 1].result in {"correct", "incorrect"};
    }
  }

  lemma {:induction false} ConsistentTotals(s: Session)
    ensures Consistent(s) ==> s.answered == s.correct + s.incorrect
    ensures Consistent(s) ==> s.correct >= 0 && s.incorrect >= 0
  {
    if Consistent(s) {
      VerdictsAddUp(s.history);
    }
  }

  /** `scored` lists, in marking order, the indices of the cards the history
      lines were written for: each index is a card of the session, every line
      copies its card, the indices strictly increase (so no card is scored
      twice), and none lies beyond the current card; the current card is
      among them exactly when it is marked. */
  ghost predicate ScoredOnce(s: Session, scored: seq<int>) {
    && |scored| == |s.history|
    && (forall k :: 0 <= k < |scored| ==> 0 <= scored[k] < |s.cards|)
    && (forall k :: 0 <= k < |scored| ==> s.history[k] == EntryFor(s.cards[scored[k]], s.history[k].result == "correct"))
    && (forall j, k :: 0 <= j < k < |scored| ==> scored[j] < scored[k])
    && (forall k :: 0 <= k < |scored| ==> scored[k] <= s.idx)
    && (s.marked <==> |scored| > 0 && scored[|scored| - 1] == s.idx)
  }

  /** The whole session invariant. */
  ghost predicate Invariant(s: Session, scored: seq<int>) {
    Consistent(s) && ScoredOnce(s, scored)
  }

  /** Strictly increasing indices below `n` number at most `n`. */
  lemma {:induction false} IncreasingBelow(xs: seq<int>, n: int)
    requires 0 <= n
    requires forall k :: 0 <= k < |xs| ==> 0 <= xs[k] < n
    requires forall j, k :: 0 <= j < k < |xs| ==> xs[j] < xs[k]
    ensures |xs| <= n
  {
    if |xs| > 0 {
      var last := xs[|xs| - 1];
      var init := xs[..|xs| - 1];
      assert forall k :: 0 <= k < |init| ==> init[k] == xs[k];
      IncreasingBelow(init, last);
    }
  }

  /** Since no card is scored twice, the number answered never exceeds the
      number of cards. */
  lemma {:induction false} AnsweredAtMostCards(s: Session, scored: seq<int>)
    requires Invariant(s, scored)
    ensures 0 <= s.answered <= |s.cards|
  {
    IncreasingBelow(scored, |s.cards|);
  }

  // ---------------------------------------------------------------------------
  // Creating and reading a session

  /** `_quiz_init_state`: a fresh session over `cards`. */
  function InitSession(cards: seq<CardDict>): (s: Session)
    ensures s.cards == cards && s.idx == 0
    ensures !s.revealed && !s.marked && !s.finished
    ensures s.correct == 0 && s.incorrect == 0 && s.answered == 0 && s.history == []
    ensures Invariant(s, [])
  {
    Session(cards, 0, false, false, 0, 0, 0, [], false)
  }

  /** What the progress line shows. Starting a quiz without cards writes its
      error message into this line, not into the feedback line. */
  datatype Progress =
    | NoProgress
    | FinishedOf(total: nat)
    | QuestionOf(number: int, total: nat)
    | NoFlashcardsYet        // "**Error:** No flashcards yet. Generate flashcards first."

  /** `_quiz_progress_text`: nothing without cards, "Finished! n / n" once
      finished, and "Question idx+1 / n" until then. */
  function ProgressOf(s: Session): (p: Progress)
    ensures p == NoProgress <==> |s.cards| == 0
    ensures p.FinishedOf? <==> |s.cards| > 0 && s.finished
    ensures p.QuestionOf? <==> |s.cards| > 0 && !s.finished
    ensures !p.NoFlashcardsYet?
    ensures p.FinishedOf? || p.QuestionOf? ==> p.total == |s.cards|
    ensures p.QuestionOf? ==> p.number == s.idx + 1
  {
    if |s.cards| == 0 then NoProgress
    else if s.finished then FinishedOf(|s.cards|)
    else QuestionOf(s.idx + 1, |s.cards|)
  }

  /** Whether the session's index names one of its cards. */
  predicate InRange(s: Session) {
    0 <= s.idx < |s.cards|
  }

  /** `_quiz_current_question`: the question of the current card, or the empty
      text when there are no cards or the index is outside them. */
  function CurrentQuestion(s: Session): (q: string)
    ensures !InRange(s) ==> q == ""
    ensures InRange(s) ==> q == Field(s.cards[s.idx], "question")
    ensures InRange(s) && q != "" ==> "question" in s.cards[s.idx]
  {
    if |s.cards| == 0 || s.idx < 0 || s.idx >= |s.cards| then ""
    else Field(s.cards[s.idx], "question")
  }

  /** `_quiz_current_answer`: as CurrentQuestion, for the answer. */
  function CurrentAnswer(s: Session): (a: string)
    ensures !InRange(s) ==> a == ""
    ensures InRange(s) ==> a == Field(s.cards[s.idx], "answer")
    ensures InRange(s) && a != "" ==> "answer" in s.cards[s.idx]
  {
    if |s.cards| == 0 || s.idx < 0 || s.idx >= |s.cards| then ""
    else Field(s.cards[s.idx], "answer")
  }

  // ---------------------------------------------------------------------------
  // What a handler returns beside the state

  /** The score panel: the three totals (the accuracy percentage is not modelled). */
  datatype Score = NoScore | ScoreOf(correct: int, incorrect: int, answered: int)

  function ScoreView(s: Session): (v: Score)
    ensures v.ScoreOf? && v.correct == s.correct && v.incorrect == s.incorrect && v.answered == s.answered
    ensures Consistent(s) ==> v.answered == v.correct + v.incorrect && v.correct >= 0 && v.incorrect >= 0
  {
    ConsistentTotals(s);
    ScoreOf(s.correct, s.incorrect, s.answered)
  }

  /** The feedback line. */
  datatype Notice =
    | NoNotice
    | StartQuizFirst         // "Start the quiz first."
    | QuizFinished           // "Quiz is finished."
    | AlreadyMarked          // "You already marked this question. ..."
    | MarkedAs(isCorrect: bool)
    | ShowAnswer(answer: string)

  /** Progress, question, score and feedback, in the handlers' output order. */
  datatype Reply = Reply(progress: Progress, question: string, score: Score, notice: Notice)

  const NotStarted: Reply := Reply(NoProgress, "", NoScore, StartQuizFirst)

  function FinishedReply(s: Session): Reply {
    Reply(ProgressOf(s), "", ScoreView(s), QuizFinished)
  }

  /** The reply that shows the session's current card with a notice. */
  function ShowCard(s: Session, notice: Notice): Reply {
    Reply(ProgressOf(s), CurrentQuestion(s), ScoreView(s), notice)
  }

  /** A handler's result: the new record and what it displays. */
  datatype Outcome = Outcome(state: Session, reply: Reply)

  // ---------------------------------------------------------------------------
  // The handlers, as functions of the record

  /** `ui_start_quiz`: a fresh session over the generated cards, showing the
      first question; with no cards, the empty session and an error. */
  function Start(cards: seq<CardDict>): (o: Outcome)
    ensures o.state == InitSession(cards)
    ensures |cards| == 0 ==> o.reply == Reply(NoFlashcardsYet, "", NoScore, NoNotice)
    ensures |cards| > 0 ==>
              o.reply == Reply(QuestionOf(1, |cards|), Field(cards[0], "question"), ScoreOf(0, 0, 0), NoNotice)
  {
    if |cards| == 0 then Outcome(InitSession([]), Reply(NoFlashcardsYet, "", NoScore, NoNotice))
    else
      var s := InitSession(cards);
      Outcome(s, ShowCard(s, NoNotice))
  }

  /** `ui_reveal_answer`. */
  function Reveal(s: Session): (o: Outcome)
    ensures |s.cards| == 0 ==> o.reply == NotStarted
    ensures |s.cards| > 0 ==> o.reply.progress == ProgressOf(s) && o.reply.score == ScoreView(s)
    ensures |s.cards| > 0 && s.finished ==> o.reply.question == "" && o.reply.notice == QuizFinished
    ensures |s.cards| > 0 && !s.finished ==>
              o.reply.question == CurrentQuestion(s) && o.reply.notice == ShowAnswer(CurrentAnswer(s))
    ensures o.state.revealed <==> s.revealed || (|s.cards| > 0 && !s.finished)
  {
    if |s.cards| == 0 then Outcome(s, NotStarted)
    else if s.finished then Outcome(s, FinishedReply(s))
    else
      var t := s.(revealed := true);
      Outcome(t, ShowCard(t, ShowAnswer(CurrentAnswer(t))))
  }

  /** Whether marking `s` scores its current card: the quiz is started, not
      finished, the card is not yet marked and the index names a card. */
  predicate Scores(s: Session) {
    |s.cards| > 0 && !s.finished && !s.marked && InRange(s)
  }

  /** The record after the current card is scored. */
  function Marked(s: Session, isCorrect: bool): (t: Session)
    requires InRange(s)
    ensures t.answered == s.answered + 1 && t.correct + t.incorrect == s.correct + s.incorrect + 1
    ensures isCorrect ==> t.correct == s.correct + 1
    ensures !isCorrect ==> t.incorrect == s.incorrect + 1
    ensures t.history == s.history + [EntryFor(s.cards[s.idx], isCorrect)]
    ensures |t.history| == |s.history| + 1 && t.history[..|s.history|] == s.history
    ensures t.history[|s.history|].question == CurrentQuestion(s)
    ensures t.history[|s.history|].answer == CurrentAnswer(s)
    ensures t.history[|s.history|].result == "correct" <==> isCorrect
    ensures t.marked && t.cards == s.cards && t.idx == s.idx && t.finished == s.finished && t.revealed == s.revealed
  {
    s.(answered := s.answered + 1,
       correct := if isCorrect then s.correct + 1 else s.correct,
       incorrect := if isCorrect then s.incorrect else s.incorrect + 1,
       marked := true,
       history := s.history + [EntryFor(s.cards[s.idx], isCorrect)])
  }

  /** `ui_mark_answer`. */
  function Mark(s: Session, isCorrect: bool): (o: Outcome)
    ensures |s.cards| == 0 ==> o.reply == NotStarted
    ensures |s.cards| > 0 ==> o.reply.progress == ProgressOf(o.state) && o.reply.score == ScoreView(o.state)
    ensures |s.cards| > 0 && !Scores(s) && !(s.marked && !s.finished) ==>
              o.reply.question == "" && o.reply.notice == QuizFinished
    ensures |s.cards| > 0 && !s.finished && s.marked ==>
              o.reply.question == CurrentQuestion(s) && o.reply.notice == AlreadyMarked
    ensures Scores(s) ==> o.reply.question == CurrentQuestion(s) && o.reply.notice == MarkedAs(isCorrect)
    ensures o.state.answered == s.answered + (if Scores(s) then 1 else 0)
    ensures |s.cards| > 0 ==> o.state.marked || o.state.finished
  {
    if |s.cards| == 0 then Outcome(s, NotStarted)
    else if s.finished then Outcome(s, FinishedReply(s))
    else if s.marked then Outcome(s, ShowCard(s, AlreadyMarked))
    else if s.idx < 0 || s.idx >= |s.cards| then
      var t := s.(finished := true);
      Outcome(t, FinishedReply(t))
    else
      var t := Marked(s, isCorrect);
      Outcome(t, ShowCard(t, MarkedAs(isCorrect)))
  }

  /** The record after moving on. */
  function Advanced(s: Session): (t: Session)
    ensures t.idx == s.idx + 1 && !t.revealed && !t.marked
    ensures s.idx >= -1 ==> (t.finished <==> !InRange(t))
    ensures t.cards == s.cards && t.history == s.history
    ensures t.correct == s.correct && t.incorrect == s.incorrect && t.answered == s.answered
  {
    s.(idx := s.idx + 1, revealed := false, marked := false, finished := s.idx + 1 >= |s.cards|)
  }

  /** `ui_next_question`. */
  function Next(s: Session): (o: Outcome)
    ensures |s.cards| == 0 ==> o.reply == NotStarted
    ensures |s.cards| > 0 ==> o.reply.progress == ProgressOf(o.state) && o.reply.score == ScoreView(o.state)
    ensures |s.cards| > 0 ==> (o.reply.notice == QuizFinished <==> o.state.finished)
    ensures |s.cards| > 0 && o.state.finished ==> o.reply.question == ""
    ensures |s.cards| > 0 && !o.state.finished ==>
              && o.reply.notice == NoNotice
              && o.reply.progress == QuestionOf(s.idx + 2, |s.cards|)
              && o.reply.question == CurrentQuestion(o.state)
  {
    if |s.cards| == 0 then Outcome(s, NotStarted)
    else if s.finished then Outcome(s, FinishedReply(s))
    else
      var t := Advanced(s);
      if t.finished then Outcome(t, FinishedReply(t)) else Outcome(t, ShowCard(t, NoNotice))
  }

  // ---------------------------------------------------------------------------
  // What each handler does to the record

  /** Revealing sets `revealed` on a started, unfinished quiz and changes
      nothing else; it never touches the scoring. Revealing twice is revealing
      once. */
  lemma {:induction false} RevealOnlyReveals(s: Session)
    ensures Reveal(s).state == if |s.cards| > 0 && !s.finished then s.(revealed := true) else s
    ensures Reveal(Reveal(s).state).state == Reveal(s).state
    ensures |s.cards| > 0 && !s.finished ==> Reveal(s).reply.notice == ShowAnswer(CurrentAnswer(s))
  {
  }

  /** Marking a card that scores adds one answer and exactly one verdict of the
      given kind, appends one history line copied from the current card, and
      marks the card; index, cards and the finished flag stay. */
  lemma {:induction false} MarkScoresCurrentCard(s: Session, isCorrect: bool)
    requires Scores(s)
    ensures var t := Mark(s, isCorrect).state;
      && t.answered == s.answered + 1
      && t.correct + t.incorrect == s.correct + s.incorrect + 1
      && (if isCorrect then t.correct == s.correct + 1 else t.incorrect == s.incorrect + 1)
      && t.history == s.history + [EntryFor(s.cards[s.idx], isCorrect)]
      && t.history[|s.history|].question == CurrentQuestion(s)
      && t.history[|s.history|].answer == CurrentAnswer(s)
      && t.marked && t.idx == s.idx && t.cards == s.cards && !t.finished && t.revealed == s.revealed
  {
  }

  /** Marking an unstarted or finished quiz, or a card already marked, changes
      nothing; marking with the index outside the cards only finishes the
      quiz. */
  lemma {:induction false} MarkGuards(s: Session, isCorrect: bool)
    ensures |s.cards| == 0 || s.finished || s.marked ==> Mark(s, isCorrect).state == s
    ensures |s.cards| > 0 && !s.finished && !s.marked && !InRange(s) ==>
              Mark(s, isCorrect).state == s.(finished := true)
  {
  }

  /** A second mark, of either verdict, changes nothing: a card is scored at
      most once. */
  lemma {:induction false} MarkTwiceIsMarkOnce(s: Session, first: bool, second: bool)
    ensures Mark(Mark(s, first).state, second).state == Mark(s, first).state
  {
  }

  /** Moving on, in a started and unfinished quiz, advances the index by one,
      clears both flags and finishes exactly when the new index is past the
      last card; totals and history stay. Otherwise nothing changes. */
  lemma {:induction false} NextAdvances(s: Session)
    ensures var t := Next(s).state;
      && t.cards == s.cards && t.history == s.history
      && t.correct == s.correct && t.incorrect == s.incorrect && t.answered == s.answered
      && (|s.cards| > 0 && !s.finished ==>
            t.idx == s.idx + 1 && !t.revealed && !t.marked && (t.finished <==> t.idx >= |s.cards|))
      && (|s.cards| == 0 || s.finished ==> t == s)
  {
  }

  // ---------------------------------------------------------------------------
  // The invariant is kept by every handler

  /** The indices scored after one mark. */
  ghost function ScoredAfterMark(s: Session, scored: seq<int>): seq<int> {
    if Scores(s) then scored + [s.idx] else scored
  }

  lemma {:induction false} MarkedKeepsConsistent(s: Session, isCorrect: bool)
    requires Consistent(s) && InRange(s)
    ensures Consistent(Marked(s, isCorrect))
  {
    var t := Marked(s, isCorrect);
    var e := EntryFor(s.cards[s.idx], isCorrect);
    CountAppend(s.history, e, "correct");
    CountAppend(s.history, e, "incorrect");
    assert forall k :: 0 <= k < |s.history| ==> t.history[k] == s.history[k];
  }

  /** Appending the line of the current, unmarked card to the history and
      marking the card extends the scored list by the current index. */
  lemma {:induction false} AppendKeepsScoredOnce(s: Session, t: Session, scored: seq<int>, e: Entry)
    requires ScoredOnce(s, scored) && InRange(s) && !s.marked
    requires e == EntryFor(s.cards[s.idx], e.result == "correct")
    requires t.history == s.history + [e] && t.cards == s.cards && t.idx == s.idx && t.marked
    ensures ScoredOnce(t, scored + [s.idx])
  {
    var sc := scored + [s.idx];
    forall k | 0 <= k < |sc|
      ensures 0 <= sc[k] < |t.cards| && sc[k] <= t.idx
      ensures t.history[k] == EntryFor(t.cards[sc[k]], t.history[k].result == "correct")
    {
      if k < |scored| {
        assert t.history[k] == s.history[k] && sc[k] == scored[k];
      } else {
        assert t.history[k] == e && sc[k] == s.idx;
      }
    }
    if |scored| > 0 {
      assert scored[|scored| - 1] < s.idx;
    }
    forall j, k | 0 <= j < k < |sc|
      ensures sc[j] < sc[k]
    {
      assert sc[j] == scored[j];
      if k < |scored| {
        assert sc[k] == scored[k];
      } else if j < |scored| - 1 {
        assert scored[j] < scored[|scored| - 1];
      }
    }
  }

  lemma {:induction false} MarkedKeepsScoredOnce(s: Session, scored: seq<int>, isCorrect: bool)
    requires ScoredOnce(s, scored) && InRange(s) && !s.marked
    ensures ScoredOnce(Marked(s, isCorrect), scored + [s.idx])
  {
    var e := EntryFor(s.cards[s.idx], isCorrect);
    assert e == EntryFor(s.cards[s.idx], e.result == "correct");
    AppendKeepsScoredOnce(s, Marked(s, isCorrect), scored, e);
  }


  /** Marking keeps the totals in step with the history and scores each card at
      most once. */
  lemma {:induction false} MarkKeepsInvariant(s: Session, scored: seq<int>, isCorrect: bool)
    requires Invariant(s, scored)
    ensures Invariant(Mark(s, isCorrect).state, ScoredAfterMark(s, scored))
  {
    if Scores(s) {
      MarkedKeepsConsistent(s, isCorrect);
      MarkedKeepsScoredOnce(s, scored, isCorrect);
    }
  }

  lemma {:induction false} RevealKeepsInvariant(s: Session, scored: seq<int>)
    requires Invariant(s, scored)
    ensures Invariant(Reveal(s).state, scored)
  {
  }

  lemma {:induction false} NextKeepsInvariant(s: Session, scored: seq<int>)
    requires Invariant(s, scored)
    ensures Invariant(Next(s).state, scored)
  {
  }

  // ---------------------------------------------------------------------------
  // Any sequence of button clicks

  /** The quiz tab's buttons: start (with the current cards), reveal, mark and next. */
  datatype Click = StartClick(cards: seq<CardDict>) | RevealClick | MarkClick(isCorrect: bool) | NextClick

  function Apply(s: Session, c: Click): Session {
    match c
    case StartClick(cards) => Start(cards).state
    case RevealClick => Reveal(s).state
    case MarkClick(b) => Mark(s, b).state
    case NextClick => Next(s).state
  }

  /** The record after the clicks, in order. */
  function Run(s: Session, clicks: seq<Click>): Session
    decreases |clicks|
  {
    if |clicks| == 0 then s else Run(Apply(s, clicks[0]), clicks[1..])
  }

  ghost function ScoredAfter(s: Session, scored: seq<int>, c: Click): seq<int> {
    match c
    case StartClick(_) => []
    case MarkClick(_) => ScoredAfterMark(s, scored)
    case _ => scored
  }

  ghost function RunScored(s: Session, scored: seq<int>, clicks: seq<Click>): seq<int>
    decreases |clicks|
  {
    if |clicks| == 0 then scored
    else RunScored(Apply(s, clicks[0]), ScoredAfter(s, scored, clicks[0]), clicks[1..])
  }

  lemma {:induction false} ApplyKeepsInvariant(s: Session, scored: seq<int>, c: Click)
    requires Invariant(s, scored)
    ensures Invariant(Apply(s, c), ScoredAfter(s, scored, c))
  {
    match c
    case StartClick(cards) =>
    case RevealClick => RevealKeepsInvariant(s, scored);
    case MarkClick(b) => MarkKeepsInvariant(s, scored, b);
    case NextClick => NextKeepsInvariant(s, scored);
  }

  lemma {:induction false} RunKeepsInvariant(s: Session, scored: seq<int>, clicks: seq<Click>)
    requires Invariant(s, scored)
    ensures Invariant(Run(s, clicks), RunScored(s, scored, clicks))
    decreases |clicks|
  {
    if |clicks| > 0 {
      ApplyKeepsInvariant(s, scored, clicks[0]);
      RunKeepsInvariant(Apply(s, clicks[0]), ScoredAfter(s, scored, clicks[0]), clicks[1..]);
    }
  }

  /** From the app's initial, empty record, whatever the clicks: answered =
      correct + incorrect = |history|, and no more cards are answered than the
      quiz has. */
  lemma {:induction false} ClicksKeepScoreConsistent(clicks: seq<Click>)
    ensures var s := Run(InitSession([]), clicks);
      && s.answered == s.correct + s.incorrect == |s.history|
      && 0 <= s.answered <= |s.cards|
  {
    var s := Run(InitSession([]), clicks);
    RunKeepsInvariant(InitSession([]), [], clicks);
    ConsistentTotals(s);
    AnsweredAtMostCards(s, RunScored(InitSession([]), [], clicks));
  }

  /** The index is never negative, and a started, unfinished quiz always has it
      on a card. */
  predicate OnACard(s: Session) {
    s.idx >= 0 && (|s.cards| > 0 && !s.finished ==> s.idx < |s.cards|)
  }

  lemma {:induction false} RunStaysOnACard(s: Session, clicks: seq<Click>)
    requires OnACard(s)
    ensures OnACard(Run(s, clicks))
    decreases |clicks|
  {
    if |clicks| > 0 {
      RunStaysOnACard(Apply(s, clicks[0]), clicks[1..]);
    }
  }

  /** The out-of-range guard of marking is defensive: no sequence of clicks from
      the initial record reaches a state in which marking would take it. */
  lemma {:induction false} OutOfRangeMarkUnreachable(clicks: seq<Click>)
    ensures var s := Run(InitSession([]), clicks);
      |s.cards| > 0 && !s.finished && !s.marked ==> Scores(s)
  {
    RunStaysOnACard(InitSession([]), clicks);
  }

  // ---------------------------------------------------------------------------
  // The record as the object the handlers update in place

  /** The quiz record whose fields the handlers assign. The empty record that
      exists before any quiz is started is an object with no cards. */
  class QuizState {
    var cards: seq<CardDict>
    var idx: int
    var revealed: bool
    var marked: bool
    var correct: int
    var incorrect: int
    var answered: int
    var history: seq<Entry>
    var finished: bool
    /** The indices of the cards scored so far, in marking order. */
    ghost var scored: seq<int>

    function Snapshot(): Session
      reads this
    {
      Session(cards, idx, revealed, marked, correct, incorrect, answered, history, finished)
    }

    ghost predicate Valid()
      reads this
    {
      Invariant(Snapshot(), scored)
    }

    /** `_quiz_init_state(cards)` as the object the handlers receive. */
    constructor (cards: seq<CardDict>)
      ensures Valid() && Snapshot() == InitSession(cards) && scored == []
    {
      this.cards := cards;
      idx := 0;
      revealed, marked, finished := false, false, false;
      correct, incorrect, answered := 0, 0, 0;
      history := [];
      scored := [];
    }

    /** `ui_reveal_answer`, in place. */
    method RevealAnswer() returns (reply: Reply)
      requires Valid()
      modifies this
      ensures Valid() && scored == old(scored)
      ensures Snapshot() == Reveal(old(Snapshot())).state
      ensures reply == Reveal(old(Snapshot())).reply
    {
      RevealKeepsInvariant(Snapshot(), scored);
      if |cards| == 0 {
        return NotStarted;
      }
      if finished {
        return FinishedReply(Snapshot());
      }
      revealed := true;
      reply := ShowCard(Snapshot(), ShowAnswer(CurrentAnswer(Snapshot())));
    }

    /** `ui_mark_answer`, in place. */
    method MarkAnswer(isCorrect: bool) returns (reply: Reply)
      requires Valid()
      modifies this
      ensures Valid() && scored == ScoredAfterMark(old(Snapshot()), old(scored))
      ensures Snapshot() == Mark(old(Snapshot()), isCorrect).state
      ensures reply == Mark(old(Snapshot()), isCorrect).reply
    {
      MarkKeepsInvariant(Snapshot(), scored, isCorrect);
      if |cards| == 0 {
        return NotStarted;
      }
      if finished {
        return FinishedReply(Snapshot());
      }
      if marked {
        return ShowCard(Snapshot(), AlreadyMarked);
      }
      if idx < 0 || idx >= |cards| {
        finished := true;
        return FinishedReply(Snapshot());
      }
      ScoreCurrent(isCorrect);
      reply := ShowCard(Snapshot(), MarkedAs(isCorrect));
    }

    /** The scoring branch of `ui_mark_answer`: the totals, the flag and the
        history are assigned as `Marked` says. */
    method ScoreCurrent(isCorrect: bool)
      requires InRange(Snapshot())
      modifies this
      ensures Snapshot() == Marked(old(Snapshot()), isCorrect) && scored == old(scored) + [old(idx)]
    {
      answered := answered + 1;
      if isCorrect {
        correct := correct + 1;
      } else {
        incorrect := incorrect + 1;
      }
      marked := true;
      history := history + [EntryFor(cards[idx], isCorrect)];
      scored := scored + [idx];
    }

    /** `ui_next_question`, in place. */
    method NextQuestion() returns (reply: Reply)
      requires Valid()
      modifies this
      ensures Valid() && scored == old(scored)
      ensures Snapshot() == Next(old(Snapshot())).state
      ensures reply == Next(old(Snapshot())).reply
    {
      ghost var s0 := Snapshot();
      NextKeepsInvariant(s0, scored);
      if |cards| == 0 {
        return NotStarted;
      }
      if finished {
        return FinishedReply(Snapshot());
      }
      idx := idx + 1;
      revealed := false;
      marked := false;
      if idx >= |cards| {
        finished := true;
        assert Snapshot() == Advanced(s0);
        return FinishedReply(Snapshot());
      }
      assert Snapshot() == Advanced(s0);
      reply := ShowCard(Snapshot(), NoNotice);
    }
  }

  /** `ui_start_quiz`: the handler builds a new record object. */
  method StartQuiz(cardsState: seq<CardDict>) returns (state: QuizState, reply: Reply)
    ensures fresh(state) && state.Valid() && state.scored == []
    ensures state.Snapshot() == Start(cardsState).state
    ensures reply == Start(cardsState).reply
  {
    if |cardsState| == 0 {
      state := new QuizState([]);
      return state, Reply(NoFlashcardsYet, "", NoScore, NoNotice);
    }
    state := new QuizState(cardsState);
    reply := ShowCard(state.Snapshot(), NoNotice);
  }
}
