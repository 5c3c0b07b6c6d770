/**
  The practice screen (`PracticeView`): one pass over a word list.

  The screen keeps an array of per-word statuses whose entries its handlers
  update in place, the index of the current word, the typed input, the
  feedback line, the celebration flags, the practice history and whether the
  results are shown. `Screen` is that state as a value, and each handler is a
  function from the state before to the state after; the class `Practice`
  holds the state in fields and its methods are proved to perform exactly
  those functions.

  Delayed callbacks (`setTimeout`) are a queue of pending `Timer`s. All three
  callbacks of this screen use the same 4000 ms delay, so they run in the
  order they were scheduled, and `Fire` runs the oldest. User events may come
  between any two firings. An advance callback carries the index captured
  when it was scheduled, as the source's closure does.
*/
module PracticeView {
  import opened Wrappers
  import opened Text
  import opened Scoring
  import Stats

  /** The message shown under the input. */
  datatype Feedback = NoFeedback | Bravo | Flawless | TryAgain | WasWord(word: string)

  /** A pending `setTimeout` callback. */
  datatype Timer =
    | ShowResultsTimer          // end of the flawless celebration: show the results
    | EndCelebrationTimer       // hide the celebration and the word overlay
    | AdvanceTimer(from: nat)   // move to word `from + 1` and clear the turn

  /** The delay of every callback, in milliseconds (`animationDuration`). */
  const AnimationDuration: nat := 4000

  /** The state of the screen. */
  datatype Screen = Screen(
    listId: int,
    listName: string,
    words: seq<string>,
    statuses: seq<Status>,
    index: nat,
    userInput: string,
    feedback: Feedback,
    isCorrect: Option<bool>,
    showCelebration: bool,
    correctWordDisplay: Option<string>,
    history: seq<Stats.Record>,
    showResults: bool,
    timers: seq<Timer>)

  /** An advance callback is only ever scheduled from a word that is not the last one. */
  predicate AdvancesInRange(timers: seq<Timer>, n: nat) {
    forall k :: 0 <= k < |timers| ==> (timers[k].AdvanceTimer? ==> timers[k].from + 1 < n)
  }

  /**
    What every reachable state satisfies: one status per word, a non-empty
    list (the screen dereferences the current word's status when it renders),
    the index on a word, and no pending advance past the last word.
  */
  predicate Inv(s: Screen) {
    |s.statuses| == |s.words| && 0 < |s.words| && s.index < |s.words| && AdvancesInRange(s.timers, |s.words|)
  }

  /** `firstTry` never comes back: every flag now set was set before. */
  predicate FirstTryNonIncreasing(before: seq<Status>, after: seq<Status>) {
    |before| == |after| && forall k :: 0 <= k < |after| ==> (after[k].firstTry ==> before[k].firstTry)
  }

  /** `revealed` is never taken back. */
  predicate RevealedNonDecreasing(before: seq<Status>, after: seq<Status>) {
    |before| == |after| && forall k :: 0 <= k < |after| ==> (before[k].revealed ==> after[k].revealed)
  }

  /** The submit button is enabled only for input that is not blank. */
  predicate SubmitEnabled(input: string): (b: bool)
    ensures b ==> input != []
  {
    TrimEmptyIff(input);
    Trim(input) != []
  }

  /** The button is enabled exactly when the input is not all white space. */
  lemma SubmitEnabledIff(input: string)
    ensures SubmitEnabled(input) <==> !AllWhite(input)
  {
    TrimEmptyIff(input);
  }

  /** The current word is the last one. */
  predicate OnLast(s: Screen) {
    s.index + 1 == |s.words|
  }

  /** The typed input matches the current word. */
  predicate Correct(s: Screen)
    requires Inv(s)
  {
    Matches(s.userInput, s.words[s.index])
  }

  /** Mounting the screen for a list; `saved` is the history read back from storage. */
  function Mount(id: int, name: string, words: seq<string>, saved: seq<Stats.Record>): (r: Screen)
    requires |words| > 0
    ensures Inv(r) && r.index == 0 && r.history == saved && !r.showResults && r.timers == []
    ensures r.statuses == InitialStatuses(|words|)
    ensures r.listId == id && r.listName == name && r.words == words
    ensures r.userInput == [] && r.feedback == NoFeedback && r.isCorrect.None?
    ensures !r.showCelebration && r.correctWordDisplay.None?
  {
    Screen(id, name, words, InitialStatuses(|words|), 0, [], NoFeedback, None, false, None, saved, false, [])
  }

  /** `saveScore`: the session's record, with the rounded first-try percentage, appended to the history. */
  function Save(s: Screen, today: string): (r: Screen)
    requires Inv(s)
    ensures r == s.(history := r.history) && |r.history| == |s.history| + 1
    ensures r.history == s.history + [Stats.Record(today, r.history[|s.history|].score, s.listId, s.listName)]
    ensures r.history[|s.history|].score == ScoreOf(s.statuses)
    ensures 0 <= r.history[|s.history|].score <= 100
    ensures r.history[|s.history|].score == 100 <== AllFirstTry(s.statuses)
    ensures |s.words| < 200 && r.history[|s.history|].score == 100 ==> AllFirstTry(s.statuses)
  {
    s.(history := s.history + [Stats.Record(today, ScoreOf(s.statuses), s.listId, s.listName)])
  }

  /** The matching branch of `handleSubmit`. */
  function Matched(s: Screen, today: string): (r: Screen)
    requires Inv(s)
    ensures Inv(r) && r.words == s.words && r.index == s.index && r.userInput == s.userInput && r.isCorrect == s.isCorrect
    ensures r.statuses == s.statuses[s.index := s.statuses[s.index].(revealed := true)]
    ensures |r.history| == |s.history| + (if OnLast(s) then 1 else 0)
    ensures r.history[..|s.history|] == s.history
    ensures OnLast(s) ==> r.history[|s.history|] == Stats.Record(today, ScoreOf(r.statuses), s.listId, s.listName)
    ensures r.showResults == (s.showResults || (OnLast(s) && !s.statuses[s.index].firstTry))
  {
    var i := s.index;
    var last := OnLast(s);
    var revealed := s.(statuses := s.statuses[i := s.statuses[i].(revealed := true)], feedback := Bravo);
    var celebrated :=
      if s.statuses[i].firstTry then
        var shown := revealed.(showCelebration := true, correctWordDisplay := Some(s.words[i]));
        var saved :=
          if !last then shown
          else
            var scored := Save(shown, today);
            if AllFirstTry(scored.statuses) then scored.(feedback := Flawless, timers := scored.timers + [ShowResultsTimer])
            else scored;
        saved.(timers := saved.timers + [EndCelebrationTimer])
      else if last then Save(revealed, today).(showResults := true)
      else revealed;
    if last then celebrated else celebrated.(timers := celebrated.timers + [AdvanceTimer(i)])
  }

  /**
    `handleSubmit`. A match reveals the current word and, on the last word,
    saves the score; a miss clears the word's first-try flag. The index and
    the input never change here, no other word changes, and the history only
    grows, by one record at most. The Enter key submits without the button's
    blank-input guard, so every input is accepted.
  */
  function Submit(s: Screen, today: string): (r: Screen)
    requires Inv(s)
    ensures Inv(r)
    ensures r.words == s.words && r.index == s.index && r.userInput == s.userInput
    ensures r.isCorrect == Some(Correct(s))
    ensures r.statuses == s.statuses[s.index := Status(s.statuses[s.index].revealed || Correct(s),
                                                     s.statuses[s.index].firstTry && Correct(s))]
    ensures |r.history| == |s.history| + (if Correct(s) && OnLast(s) then 1 else 0)
    ensures r.history[..|s.history|] == s.history
    ensures Correct(s) && OnLast(s) ==> r.history[|s.history|] == Stats.Record(today, ScoreOf(r.statuses), s.listId, s.listName)
    ensures r.showResults == (s.showResults || (Correct(s) && OnLast(s) && !s.statuses[s.index].firstTry))
  {
    var t := s.(isCorrect := Some(Correct(s)));
    if Correct(s) then Matched(t, today)
    else Missed(t)
  }

  /** The failing branch of `handleSubmit`: the current word loses its first-try flag. */
  function Missed(s: Screen): (r: Screen)
    requires Inv(s)
    ensures Inv(r)
    ensures r == s.(statuses := r.statuses, feedback := TryAgain)
    ensures r.statuses == s.statuses[s.index := s.statuses[s.index].(firstTry := false)]
  {
    s.(statuses := s.statuses[s.index := s.statuses[s.index].(firstTry := false)], feedback := TryAgain)
  }

  /**
    `showAnswer`: the current word is revealed, loses its first-try flag and
    is put into the input. The index does not move and no timer is scheduled.
  */
  function Reveal(s: Screen): (r: Screen)
    requires Inv(s)
    ensures Inv(r) && r.index == s.index && r.timers == s.timers && r.history == s.history
    ensures r.statuses == s.statuses[s.index := Status(true, false)]
    ensures r.userInput == s.words[s.index] && r.isCorrect == Some(false)
    ensures FirstTryNonIncreasing(s.statuses, r.statuses) && RevealedNonDecreasing(s.statuses, r.statuses)
  {
    var i := s.index;
    var st := s.statuses[i].(revealed := true).(firstTry := false);
    s.(statuses := s.statuses[i := st], feedback := WasWord(s.words[i]), userInput := s.words[i], isCorrect := Some(false))
  }

  /** `nextWord`: on to the next word with a cleared turn, unless on the last word. */
  function Next(s: Screen): (r: Screen)
    requires Inv(s)
    ensures Inv(r) && r.statuses == s.statuses && r.history == s.history && r.timers == s.timers
    ensures OnLast(s) ==> r == s
    ensures !OnLast(s) ==> r.index == s.index + 1 && r.userInput == [] && r.feedback == NoFeedback
  {
    if s.index < |s.words| - 1 then s.(index := s.index + 1, userInput := [], feedback := NoFeedback, isCorrect := None)
    else s
  }

  /** The oldest pending callback runs and leaves the queue. */
  function Fire(s: Screen): (r: Screen)
    requires Inv(s) && s.timers != []
    ensures Inv(r) && r.timers == s.timers[1..] && r.statuses == s.statuses && r.history == s.history
    ensures s.timers[0].AdvanceTimer? ==> r.index == s.timers[0].from + 1 && r.userInput == []
    ensures !s.timers[0].AdvanceTimer? ==> r.index == s.index && !r.showCelebration
    ensures r.showResults == (s.showResults || s.timers[0] == ShowResultsTimer)
  {
    var rest := s.(timers := s.timers[1..]);
    match s.timers[0]
    case ShowResultsTimer => rest.(showCelebration := false, showResults := true)
    case EndCelebrationTimer => rest.(showCelebration := false, correctWordDisplay := None)
    case AdvanceTimer(from) => rest.(index := from + 1, userInput := [], feedback := NoFeedback, isCorrect := None)
  }

  /** Typing into the input field. */
  function Type(s: Screen, text: string): (r: Screen)
    ensures r == s.(userInput := text)
  {
    s.(userInput := text)
  }

  /** `renderResults`: the last ten records of this list, oldest first. */
  function Results(s: Screen): (r: seq<Stats.Record>)
    ensures |r| <= 10
    ensures forall x :: x in r ==> x in s.history && x.listId == s.listId
    ensures var f := Stats.ForList(s.history, s.listId);
            |r| == (if |f| < 10 then |f| else 10) && r == f[|f| - |r|..]
  {
    Stats.Chart(s.history, Some(s.listId))
  }

  /** A blank input, which only the Enter key can submit, is a miss on any non-empty word. */
  lemma BlankSubmitMisses(s: Screen, today: string)
    requires Inv(s) && !SubmitEnabled(s.userInput) && s.words[s.index] != []
    ensures Submit(s, today).isCorrect == Some(false)
    ensures !Submit(s, today).statuses[s.index].firstTry
  {
    TrimEmptyIff(s.userInput);
    BlankNeverMatches(s.userInput, s.words[s.index]);
  }

  /**
    A flawless session ends on a first-try match of the last word: the score
    saved is 100, and the results are shown once the celebration callback runs.
  */
  lemma FlawlessFinish(s: Screen, today: string)
    requires Inv(s) && Correct(s) && OnLast(s) && AllFirstTry(s.statuses)
    ensures var r := Submit(s, today);
            && r.history == s.history + [Stats.Record(today, 100, s.listId, s.listName)]
            && r.feedback == Flawless && r.showResults == s.showResults
            && r.timers == s.timers + [ShowResultsTimer, EndCelebrationTimer]
  {
    var i := s.index;
    var t := s.(isCorrect := Some(true));
    assert Submit(s, today) == Matched(t, today);
    var rs := s.statuses[i := s.statuses[i].(revealed := true)];
    assert AllFirstTry(rs) by {
      assert forall k :: 0 <= k < |rs| ==> rs[k].firstTry == s.statuses[k].firstTry;
    }
    assert CountFirstTry(rs) == |rs| by { CountAllIff(rs); }
  }

  /**
    The last word solved at the first try in a session that is not flawless:
    the score is saved, but no callback is scheduled that would show the
    results, and the screen stays on the last word.
  */
  lemma FirstTryLastNotFlawless(s: Screen, today: string)
    requires Inv(s) && Correct(s) && OnLast(s) && s.statuses[s.index].firstTry && !AllFirstTry(s.statuses)
    ensures var r := Submit(s, today);
            && |r.history| == |s.history| + 1
            && r.showResults == s.showResults
            && r.timers == s.timers + [EndCelebrationTimer]
  {
    var i := s.index;
    var rs := s.statuses[i := s.statuses[i].(revealed := true)];
    var k :| 0 <= k < |s.statuses| && !s.statuses[k].firstTry;
    assert !rs[k].firstTry;
  }

  /**
    After that submit the results still come, but only through a second
    submit: revealing the word and submitting it saves a second record and
    shows the results at once.
  */
  lemma RevealAfterFirstTryLast(s: Screen, today: string)
    requires Inv(s) && Correct(s) && OnLast(s) && s.statuses[s.index].firstTry && !AllFirstTry(s.statuses)
    requires Trim(s.words[s.index]) == s.words[s.index]
    ensures var r := Submit(Reveal(Submit(s, today)), today);
            r.showResults && |r.history| == |s.history| + 2
  {
    FirstTryLastNotFlawless(s, today);
    var r1 := Submit(s, today);
    assert OnLast(r1) && r1.words == s.words;
    RevealThenSubmitOnLast(r1, today);
  }

  /**
    A match before the last word saves nothing and schedules the end of the
    celebration, for a first try, and then the move to the next word.
  */
  lemma MatchSchedulesAdvance(s: Screen, today: string)
    requires Inv(s) && Correct(s) && !OnLast(s)
    ensures var r := Submit(s, today);
            && r.history == s.history && r.showResults == s.showResults
            && r.timers == s.timers + (if s.statuses[s.index].firstTry then [EndCelebrationTimer] else []) + [AdvanceTimer(s.index)]
  {
  }

  /** A miss schedules nothing and saves nothing. */
  lemma MissSchedulesNothing(s: Screen, today: string)
    requires Inv(s) && !Correct(s)
    ensures var r := Submit(s, today);
            && r.history == s.history && r.timers == s.timers && r.feedback == TryAgain
  {
  }

  /**
    A match of the last word after a miss or a reveal saves the score and
    shows the results at once, without a celebration.
  */
  lemma LateFinishShowsResults(s: Screen, today: string)
    requires Inv(s) && Correct(s) && OnLast(s) && !s.statuses[s.index].firstTry
    ensures var r := Submit(s, today);
            && r.showResults && r.timers == s.timers && r.feedback == Bravo
            && r.history == s.history + [Stats.Record(today, ScoreOf(r.statuses), s.listId, s.listName)]
  {
  }

  /**
    A reveal never finishes a session, but it puts the word into the input,
    and submitting that input on the last word (for a word without surrounding
    blanks) saves the session and shows the results at once.
  */
  lemma RevealThenSubmitOnLast(s: Screen, today: string)
    requires Inv(s) && OnLast(s) && Trim(s.words[s.index]) == s.words[s.index]
    ensures Reveal(s).showResults == s.showResults && Next(Reveal(s)) == Reveal(s)
    ensures var r := Submit(Reveal(s), today);
            && r.showResults && r.statuses[s.index] == Status(true, false)
            && |r.history| == |s.history| + 1
  {
    TargetMatchesItself(s.words[s.index]);
  }

  /** An advance callback never moves past the last word, whatever happened since it was scheduled. */
  lemma FireStaysOnList(s: Screen)
    requires Inv(s) && s.timers != []
    ensures Fire(s).index < |s.words|
  {
  }

  /** A submit changes only the current word's status, never brings back a first try and never hides a word again. */
  lemma SubmitMonotone(s: Screen, today: string)
    requires Inv(s)
    ensures var r := Submit(s, today);
            && FirstTryNonIncreasing(s.statuses, r.statuses) && RevealedNonDecreasing(s.statuses, r.statuses)
            && forall k :: 0 <= k < |s.words| && k != s.index ==> r.statuses[k] == s.statuses[k]
  {
  }

  /** The first word of a two-word list right at the first try, and both callbacks run. */
  lemma FirstWordAtFirstTry(id: int, name: string, first: string, second: string, today: string)
    requires Matches(first, first)
    ensures var a := Submit(Type(Mount(id, name, [first, second], []), first), today);
            a.timers == [EndCelebrationTimer, AdvanceTimer(0)]
    ensures var s1 := Fire(Fire(Submit(Type(Mount(id, name, [first, second], []), first), today)));
            && s1.words == [first, second] && s1.listId == id && s1.listName == name
            && s1.index == 1 && s1.statuses == [Status(true, true), Fresh]
            && s1.history == [] && !s1.showResults && s1.timers == []
  {
    var a0 := Type(Mount(id, name, [first, second], []), first);
    assert a0.statuses == [Fresh, Fresh];
    MatchSchedulesAdvance(a0, today);
  }

  /** A miss on the second word of a two-word list whose first word was right at the first try. */
  lemma SecondWordMissed(s1: Screen, miss: string, today: string)
    requires Inv(s1) && s1.index == 1 && |s1.words| == 2 && !Matches(miss, s1.words[1])
    requires s1.statuses == [Status(true, true), Fresh] && s1.history == []
    ensures var b := Submit(Type(s1, miss), today);
            && Inv(b) && b.index == 1 && b.words == s1.words && b.listId == s1.listId && b.listName == s1.listName
            && b.statuses == [Status(true, true), Status(false, false)] && b.history == []
  {
  }

  /** The second word then right: one word out of two counts, and the results are shown at once. */
  lemma SecondWordAfterMiss(b: Screen, today: string)
    requires Inv(b) && b.index == 1 && |b.words| == 2 && Matches(b.words[1], b.words[1])
    requires b.statuses == [Status(true, true), Status(false, false)] && b.history == []
    ensures var s2 := Submit(Type(b, b.words[1]), today);
            && s2.statuses == [Status(true, true), Status(true, false)]
            && s2.history == [Stats.Record(today, 50, b.listId, b.listName)]
            && s2.showResults
  {
    LateFinishShowsResults(Type(b, b.words[1]), today);
    HalfScore();
  }

  lemma HalfScore()
    ensures ScoreOf([Status(true, true), Status(true, false)]) == 50
  {
    assert CountFirstTry([Status(true, true), Status(true, false)]) == 1;
  }

  /**
    A two-word session: the first word right at the first try, the second
    right after one miss. Only the first word counts, so the saved score is
    50, and the results are shown at once because the last word was not a
    first try.
  */
  lemma TwoWordSession(id: int, name: string, first: string, second: string, miss: string, today: string)
    requires Matches(first, first) && Matches(second, second) && !Matches(miss, second)
    ensures Submit(Type(Mount(id, name, [first, second], []), first), today).timers
            == [EndCelebrationTimer, AdvanceTimer(0)]
    ensures var s1 := Fire(Fire(Submit(Type(Mount(id, name, [first, second], []), first), today)));
            var s2 := Submit(Type(Submit(Type(s1, miss), today), second), today);
            && s1.index == 1
            && s2.history == [Stats.Record(today, 50, id, name)]
            && s2.showResults
  {
    FirstWordAtFirstTry(id, name, first, second, today);
    var s1 := Fire(Fire(Submit(Type(Mount(id, name, [first, second], []), first), today)));
    SecondWordMissed(s1, miss, today);
    SecondWordAfterMiss(Submit(Type(s1, miss), today), today);
  }

  /** The screen's state, held in fields; the status array is updated in place. */
  class Practice {
    const listId: int
    const listName: string
    const words: seq<string>
    /** `wordStatuses`. */
    const statuses: array<Status>
    /** `currentWordIndex`. */
    var index: nat
    var userInput: string
    var feedback: Feedback
    var isCorrect: Option<bool>
    var showCelebration: bool
    var correctWordDisplay: Option<string>
    /** `practiceHistory`, oldest first. */
    var history: seq<Stats.Record>
    var showResults: bool
    /** Pending callbacks, oldest first. */
    var timers: seq<Timer>

    function State(): Screen
      reads this, statuses
    {
      Screen(listId, listName, words, statuses[..], index, userInput, feedback, isCorrect,
             showCelebration, correctWordDisplay, history, showResults, timers)
    }

    constructor (id: int, name: string, list: seq<string>, saved: seq<Stats.Record>)
      requires |list| > 0
      ensures fresh(statuses)
      ensures State() == Mount(id, name, list, saved)
    {
      listId, listName, words := id, name, list;
      statuses := new Status[|list|](_ => Fresh);
      index, userInput, feedback, isCorrect := 0, [], NoFeedback, None;
      showCelebration, correctWordDisplay := false, None;
      history, showResults, timers := saved, false, [];
    }

    /** Typing into the input field. */
    method SetUserInput(text: string)
      modifies this
      ensures State() == Type(old(State()), text)
    {
      userInput := text;
    }

    method SaveScore(today: string) returns (score: int)
      requires Inv(State())
      modifies this`history
      ensures State() == Save(old(State()), today)
      ensures score == history[|old(history)|].score
    {
      score := ScoreOf(statuses[..]);
      history := history + [Stats.Record(today, score, listId, listName)];
    }

    method HandleSubmit(today: string)
      requires Inv(State())
      modifies this, statuses
      ensures State() == Submit(old(State()), today)
    {
      var correct := Matches(userInput, words[index]);
      isCorrect := Some(correct);
      if correct {
        Accept(today);
      } else {
        statuses[index] := statuses[index].(firstTry := false);
        feedback := TryAgain;
      }
    }

    /** The matching branch of `handleSubmit`, updating the current status in place. */
    method Accept(today: string)
      requires Inv(State())
      modifies this, statuses
      ensures State() == Matched(old(State()), today)
    {
      var i := index;
      statuses[i] := statuses[i].(revealed := true);
      feedback := Bravo;
      var isLast := i == |words| - 1;
      if statuses[i].firstTry {
        showCelebration := true;
        correctWordDisplay := Some(words[i]);
        if isLast {
          var _ := SaveScore(today);
          if AllFirstTry(statuses[..]) {
            feedback := Flawless;
            timers := timers + [ShowResultsTimer];
          }
        }
        timers := timers + [EndCelebrationTimer];
      } else if isLast {
        var _ := SaveScore(today);
        showResults := true;
      }
      if !isLast {
        timers := timers + [AdvanceTimer(i)];
      }
    }

    method ShowAnswer()
      requires Inv(State())
      modifies this, statuses
      ensures State() == Reveal(old(State()))
    {
      var word := words[index];
      statuses[index] := statuses[index].(revealed := true).(firstTry := false);
      feedback := WasWord(word);
      userInput := word;
      isCorrect := Some(false);
    }

    method NextWord()
      requires Inv(State())
      modifies this
      ensures State() == Next(old(State()))
    {
      if index < |words| - 1 {
        index := index + 1;
        userInput := [];
        feedback := NoFeedback;
        isCorrect := None;
      }
    }

    method FireTimer()
      requires Inv(State()) && timers != []
      modifies this
      ensures State() == Fire(old(State()))
    {
      var t := timers[0];
      timers := timers[1..];
      match t {
        case ShowResultsTimer =>
          showCelebration := false;
          showResults := true;
        case EndCelebrationTimer =>
          showCelebration := false;
          correctWordDisplay := None;
        case AdvanceTimer(from) =>
          index := from + 1;
          userInput := [];
          feedback := NoFeedback;
          isCorrect := None;
      }
    }
  }
}
