# Flashcard Tutor: study-text cleaning and quiz session

This project models, in Dafny, the two parts of the Flashcard Tutor app (`app.py`)
that carry their own behaviour:

- **Study-text preprocessing** (`_preprocess_study_text`, module `Preprocess` in
  `preprocess.dfy`). Pasted study notes are cleaned in four steps, in this order:
  1. `\r\n` and then any remaining `\r` become `\n`.
  2. Every run of tabs and spaces becomes one space.
  3. Every run of three or more newlines becomes two.
  4. Leading and trailing whitespace is stripped, using Python's `str.isspace` set.

  A missing text (`None`), a text that is empty after cleaning, and a cleaned text
  shorter than 120 characters are rejected with an error. Otherwise the cleaned text
  is returned. The result is a two-way datatype: a text or an error, never both.
  The model proves:
  - the shape of every accepted text;
  - both directions of the accept/reject conditions;
  - that cleaning is idempotent, and an accepted text is accepted again unchanged;
  - that cleaning changes whitespace only, so the other characters survive in order.
- **The quiz session** (`_quiz_init_state`, the `_quiz_*` readers and the
  `ui_start_quiz`, `ui_reveal_answer`, `ui_mark_answer`, `ui_next_question`
  handlers; module `Quiz` in `quiz.dfy`). The session record is the datatype
  `Session` where the app builds or reads it. The handlers update the record's
  fields in place, so it is also the class `QuizState`, with one field per
  dictionary key and one method per in-place handler (`RevealAnswer`,
  `MarkAnswer`, `NextQuestion`, with the helper `ScoreCurrent`); `StartQuiz`
  builds a new object. A ghost field `scored` lists the
  indices of the cards scored so far. The class invariant `Valid()` says that the
  totals agree with the history (answered = correct + incorrect = |history|). It
  also says that no card is scored twice and that every history line copies its
  card. Each handler is first written as a function of the record (`Start`,
  `Reveal`, `Mark`, `Next`), and its method is proved to leave the fields and
  return the reply that function gives. Lemmas about the functions cover each of
  the source's branches:
  - not started;
  - finished;
  - already marked;
  - index out of range;
  - the normal case.

  The replies are abstracted to datatypes: progress, question, score totals and
  feedback notice.

Dafny's `char` is a Unicode scalar value, so `|s|` counts code points as Python's
`len` does, and the 120-character bound means the same thing in both.

## Model

| member | source | states |
|---|---|---|
| Preprocess.IsSpace | app.py:150 | the whitespace set of Python's `str.isspace`, which `str.strip()` removes: it contains space, tab, newline and carriage return, and no ASCII character from `!` to `~` |
| Preprocess.ReplaceCrLf | app.py:146 | the result is no longer than the input and adds no character; text without `\r` is left as it is; what happens to each pair is stated by `ReplaceCrLfSplits` and `ReplaceCrLfPieces` |
| Preprocess.ReplaceCrLfSplits | app.py:146 | cutting the text anywhere except between a `\r` and the `\n` after it, the first replacement of the whole is the replacements of the two parts put together |
| Preprocess.ReplaceCrLfPieces | app.py:146 | `\r\n` becomes `\n` and every single character, a lone `\r` included, stays; with `ReplaceCrLfSplits` this fixes the result for every text |
| Preprocess.ReplaceCr | app.py:146 | each remaining `\r` is replaced by `\n` and every other character is kept in place, so no `\r` is left |
| Preprocess.ReplaceCrSplits | app.py:146 | the second replacement of a concatenation is the concatenation of the replacements |
| Preprocess.NormalizeLineEndings | app.py:146 | after both replacements no `\r` is left, only `\n` may be added, and text without `\r` is unchanged; what happens to each line break is stated by `NormalizeLineEndingsSplits` and `NormalizeLineEndingsPieces` |
| Preprocess.NormalizeLineEndingsSplits | app.py:146 | both replacements together work piece by piece wherever the cut does not separate a `\r\n` pair |
| Preprocess.NormalizeLineEndingsPieces | app.py:146 | `\r\n` and a lone `\r` each become one `\n`, and every other character stays; with `NormalizeLineEndingsSplits` this fixes the result for every text |
| Preprocess.BlankRun | app.py:148 | the length of the maximal leading run of tabs and spaces |
| Preprocess.CollapseBlanks | app.py:148 | the result has no tab and no two consecutive spaces; it starts with a space exactly where the input starts with a blank; only spaces are added; what happens to each run is stated by `CollapseBlanksSplits` and `BlankRunBecomesOneSpace` |
| Preprocess.CollapseBlanksSplits | app.py:148 | around any character that is neither tab nor space, the collapse of the whole is the collapse of each side with that character kept between them |
| Preprocess.BlankRunBecomesOneSpace | app.py:148 | a whole non-empty run of tabs and spaces becomes exactly one space; with `CollapseBlanksSplits` this fixes the result for every text |
| Preprocess.NewlineRun | app.py:149 | the length of the maximal leading run of newlines |
| Preprocess.CollapseNewlines | app.py:149 | the result has no three consecutive newlines; it adds no character, keeps the first character and keeps "no two consecutive spaces"; what happens to each run is stated by `CollapseNewlinesSplits` and `NewlineRunBecomesAtMostTwo` |
| Preprocess.CollapseNewlinesSplits | app.py:149 | around any character other than a newline, the collapse of the whole is the collapse of each side with that character kept between them |
| Preprocess.NewlineRunBecomesAtMostTwo | app.py:149 | a whole run of k newlines becomes min(k, 2) newlines, so runs of one or two stay and longer runs become two; with `CollapseNewlinesSplits` this fixes the result for every text |
| Preprocess.LeadingSpaces | app.py:150 | the length of the maximal whitespace prefix |
| Preprocess.TrailingSpaces | app.py:150 | the length of the maximal whitespace suffix |
| Preprocess.Strip | app.py:150 | the result is a contiguous part of the input with only whitespace cut off before and after it, and it neither starts nor ends with whitespace; it is empty exactly when the input is all whitespace; it keeps the pairwise shapes; input without outer whitespace is returned unchanged |
| Preprocess.StripIsTheOnlyTrim | app.py:150 | any part of the text left after cutting only whitespace off both ends, and that neither starts nor ends with whitespace, is the stripped text, so the contract of `Strip` determines its result |
| Preprocess.CleanText | app.py:146-150 | the cleaned text has no `\r`, no tab, no double space, no triple newline and no outer whitespace, and is no longer than the input |
| Preprocess.PreprocessStudyText | app.py:143-167 | None gives the missing-input error; the text is accepted exactly when the cleaned text has at least 120 characters, and then it is the cleaned text; empty after cleaning gives the empty-input error and 1..119 characters the too-short error |
| Preprocess.ReplaceCrIdentity | app.py:146 | text without `\r` is a fixed point of the second replacement |
| Preprocess.CollapseBlanksIdentity | app.py:148 | text without tabs or double spaces is a fixed point of the blank collapse |
| Preprocess.CollapseNewlinesIdentity | app.py:149 | text without a triple newline is a fixed point of the newline collapse |
| Preprocess.NormalizedIsFixpoint | app.py:146-150 | any text of the cleaned shape is returned unchanged by the cleaning |
| Preprocess.CleanTextIdempotent | app.py:146-150 | cleaning twice gives the same text as cleaning once |
| Preprocess.AcceptedTextIsStable | app.py:143-167 | preprocessing an accepted text again accepts it with the same text |
| Preprocess.ReplaceCrLfKeepsContent | app.py:146 | replacing `\r\n` keeps every non-whitespace character, in order |
| Preprocess.ReplaceCrKeepsContent | app.py:146 | replacing `\r` keeps every non-whitespace character, in order |
| Preprocess.CollapseBlanksKeepsContent | app.py:148 | collapsing blanks keeps every non-whitespace character, in order |
| Preprocess.CollapseNewlinesKeepsContent | app.py:149 | collapsing newlines keeps every non-whitespace character, in order |
| Preprocess.StripKeepsContent | app.py:150 | stripping keeps every non-whitespace character, in order |
| Preprocess.CleanTextKeepsContent | app.py:146-150 | the whole cleaning changes whitespace only: the non-whitespace characters of input and output are the same sequence |
| Quiz.VerdictsAddUp | app.py:457-461 | when every verdict is correct or incorrect, the two verdict counts add up to the number of history lines |
| Quiz.ConsistentTotals | app.py:457-461 | for every record: when it is consistent, answered = correct + incorrect and neither total is negative |
| Quiz.AnsweredAtMostCards | app.py:457-472 | because no card is scored twice, answered never exceeds the number of cards |
| Quiz.InitSession | app.py:298-318 | a fresh record has the given cards, index 0, all totals 0, an empty history and all three flags false; it satisfies the session invariant with nothing scored |
| Quiz.EntryFor | app.py:464-471 | the history line copies the card's question, answer, type and difficulty (each empty when missing), and its result is "correct" exactly when the mark was correct and "incorrect" exactly when it was not |
| Quiz.ScoreView | app.py:321-334 | the score panel shows the record's three totals; in a consistent record answered = correct + incorrect and neither is negative |
| Quiz.ProgressOf | app.py:337-344 | no progress without cards; "finished n / n" exactly when finished; otherwise question idx+1 of n |
| Quiz.CurrentQuestion | app.py:347-352 | empty when there are no cards or the index is out of range, otherwise the current card's question field (empty if the card has none) |
| Quiz.CurrentAnswer | app.py:355-360 | empty when there are no cards or the index is out of range, otherwise the current card's answer field |
| Quiz.Start | app.py:363-386 | the new record is the fresh record over the cards; with no cards the progress line carries the no-flashcards error and question, score and feedback are empty; otherwise question 1 of n, the first card's question, zero totals and an empty feedback |
| Quiz.Reveal | app.py:389-411 | without cards the start-the-quiz-first reply; when finished the progress, score and finished notice with no question; otherwise the progress, current question, score and the current card's answer; `revealed` is set exactly on a started, unfinished quiz |
| Quiz.Marked | app.py:457-472 | answered and exactly the chosen verdict total rise by one; the history becomes the old history followed by exactly one line copied from the current card (`EntryFor`), whose result is "correct" or "incorrect" as marked; the card becomes marked and nothing else changes |
| Quiz.Mark | app.py:416-481 | without cards the start-the-quiz-first reply; when finished, or with the index outside the cards, the finished notice with no question; when already marked the already-marked notice with the current question; when it scores the verdict notice with the current question; answered rises by one exactly when it scores, and afterwards the card is marked or the quiz finished |
| Quiz.Advanced | app.py:502-509 | the index rises by one and both per-card flags are cleared; from a non-negative index, `finished` is set exactly when the new index is outside the cards; cards, totals and history stay |
| Quiz.Next | app.py:486-524 | without cards the start-the-quiz-first reply; otherwise the reply shows the new progress and score, the finished notice and no question exactly when the quiz is now finished, and else question idx+2 of n with the new current question and an empty feedback |
| Quiz.RevealOnlyReveals | app.py:389-410 | on a started, unfinished quiz revealing sets only `revealed` and shows the current answer; otherwise nothing changes; revealing twice is revealing once |
| Quiz.MarkScoresCurrentCard | app.py:457-472 | marking a card that scores raises answered and exactly the chosen verdict total by one, appends one history line copied from the current card, and sets `marked`; index, cards, `revealed` and `finished` stay |
| Quiz.MarkGuards | app.py:424-455 | with no cards, when finished or when already marked, marking changes nothing; with the index outside the cards it only sets `finished` |
| Quiz.MarkTwiceIsMarkOnce | app.py:436-443 | a second mark, with either verdict, leaves the record as the first mark left it |
| Quiz.NextAdvances | app.py:490-516 | on a started, unfinished quiz the index rises by one, both flags are cleared and `finished` is set exactly when the new index is past the last card; totals and history stay; otherwise nothing changes |
| Quiz.MarkedKeepsConsistent | app.py:457-472 | scoring a card keeps the totals in step with the history |
| Quiz.AppendKeepsScoredOnce | app.py:464-472 | appending the line copied from the current, unmarked card and marking it extends the scored index list by the current index, keeping it strictly increasing and every line tied to its card |
| Quiz.MarkedKeepsScoredOnce | app.py:457-472 | scoring an unmarked in-range card records it after every earlier scored card, with a history line copied from it, so no card is scored twice |
| Quiz.MarkKeepsInvariant | app.py:424-472 | every branch of marking keeps the session invariant, adding the current index to the scored cards exactly when it scores |
| Quiz.RevealKeepsInvariant | app.py:397-403 | revealing keeps the session invariant |
| Quiz.NextKeepsInvariant | app.py:490-509 | moving on keeps the session invariant |
| Quiz.RunKeepsInvariant | app.py:363-526 | any sequence of start, reveal, mark and next clicks keeps the session invariant |
| Quiz.ClicksKeepScoreConsistent | app.py:363-526 | from the app's empty record, after any clicks, answered = correct + incorrect = number of history lines, and answered is at most the number of cards |
| Quiz.RunStaysOnACard | app.py:447-509 | any clicks keep the index non-negative and, while a quiz is running, on a card |
| Quiz.OutOfRangeMarkUnreachable | app.py:445-455 | after any clicks from the empty record, an unfinished and unmarked started quiz is on a card, so marking always scores and the out-of-range branch is never taken |
| Quiz.QuizState.constructor | app.py:298-318 | the object starts as the fresh record, satisfying the invariant with nothing scored |
| Quiz.QuizState.RevealAnswer | app.py:389-413 | the fields after the call and the reply are those of `Reveal` on the fields before it; the invariant holds and nothing is scored |
| Quiz.QuizState.MarkAnswer | app.py:416-483 | the fields after the call and the reply are those of `Mark` on the fields before it; the invariant holds and the current card joins the scored cards exactly when it scores |
| Quiz.QuizState.ScoreCurrent | app.py:457-472 | the in-place assignments of the scoring branch leave the fields as `Marked` says and add the current index to the scored cards |
| Quiz.QuizState.NextQuestion | app.py:486-526 | the fields after the call and the reply are those of `Next` on the fields before it; the invariant holds and nothing is scored |
| Quiz.StartQuiz | app.py:363-386 | returns a new object whose fields and reply are those of `Start` (so with no cards the error is in the progress line), satisfying the invariant with nothing scored |

## Left out

- Flashcard generation (`generate_flashcards`, `Flashcard`, `cards_to_table`, `has_openai_key`): the `flashcards` and `llm_client` modules are not part of this model. Cards enter the quiz as dictionaries from field name to text.
- The run-time patches to the Gradio library and the environment changes at import time: they concern a foreign library's internals.
- PDF text extraction and upload handling: they are file I/O through the `pypdf` library.
- `_quiz_score_text`: the accuracy percentage is floating point and text formatting. The score panel is modelled as its three integer totals.
- The rendered display strings (progress line, feedback messages, the `**Answer:**` prefix) are modelled as datatypes (`Progress`, `Notice`, `Reply`), not as text.
- JSON serialisation of cards (`_cards_to_json`), the status message of `ui_generate`, and the UI layout and event wiring: they are presentation only.
- The `except Exception` wrappers of the quiz handlers: the modelled handlers are total and raise nothing.
- An absent quiz state (`None`) and Gradio's initial empty dictionary are both modelled as a `QuizState` with no cards. The source treats both as "not started".
- A `None` card list given to `_quiz_init_state` or `ui_start_quiz` is modelled as the empty sequence, as the source's `cards_state or []` does.
- The record's keys are always present, since `_quiz_init_state` creates them all. The `.get` defaults of the handlers for a record missing its keys are not modelled. Missing fields of a card dictionary are modelled, as the empty text.
- ReplaceCrLf, NormalizeLineEndings, CollapseBlanks, CollapseNewlines: their own contracts state the shape of the result only; what each step does to every line break or run is proved separately, by the `…Splits` and `…Pieces`/`…Becomes…` lemmas named in the table.
- Gradio's scheduling of events is not modelled: clicks are handled one after another (`Run` applies them in order). The check of `marked` and its assignment in `ui_mark_answer` are separate steps, so two marks handled at the same time could both score; the model does not cover that.
- The out-of-range branch of `ui_mark_answer` (index outside the cards) is modelled and proved to keep the invariant, although `Quiz.OutOfRangeMarkUnreachable` shows that no sequence of clicks reaches it.
- The source comments that the whitespace step collapses trailing spaces. The code only turns each run of tabs and spaces into one space, so a space before a newline stays. The model follows the code.
