/**
  The earlier single-component application (`DicteeApp`): a menu of word
  lists, an editor for one list, the creation of new lists, and a practice
  session without reveal and without saved scores.

  The list operations build new sequences and are pure functions. The whole
  screen state is the value `App`; each handler is a function from the state
  before to the state after, and the class `DicteeApp` holds the state in
  fields, with the per-word statuses in an array that submitting updates in
  place and starting or resetting a session replaces.

  Delayed callbacks are a queue of pending `OldTimer`s; both callbacks of
  this component use the same 1500 ms delay, so they run in the order they
  were scheduled. Neither starting a session nor resetting it cancels them.
*/
module Dictee {
  import opened Wrappers
  import opened Text
  import opened Scoring

  /** A word list of the menu. */
  datatype WordList = WordList(id: int, name: string, words: seq<string>)

  /** The list being edited: its identifier, current words and the name being typed (`newName`). */
  datatype Draft = Draft(id: int, name: string, words: seq<string>, newName: string)

  datatype View = Menu | Edit | Practice

  datatype OldFeedback = NoFeedback | Bravo | Finished | TryAgain

  /** A pending `setTimeout` callback. */
  datatype OldTimer =
    | EndCelebration        // hide the celebration
    | Advance(from: nat)    // move to word `from + 1` and clear the turn

  /** The delay of both callbacks, in milliseconds. */
  const CelebrationDuration: nat := 1500

  /** Every identifier names one list at most. */
  predicate UniqueIds(lists: seq<WordList>) {
    forall i, j :: 0 <= i < j < |lists| ==> lists[i].id != lists[j].id
  }

  /** A word as the editors store it: not blank and without surrounding white space. */
  predicate CleanWord(w: string) {
    w != [] && Trim(w) == w
  }

  predicate Clean(words: seq<string>) {
    forall w :: w in words ==> CleanWord(w)
  }

  /**
    `saveEditedList`: every list with the draft's identifier takes the draft's
    name and words; every other list, the number of lists and their order are
    unchanged.
  */
  function ApplyEdit(lists: seq<WordList>, d: Draft): (r: seq<WordList>)
    ensures |r| == |lists|
    ensures forall k :: 0 <= k < |r| ==> r[k].id == lists[k].id
    ensures forall k :: 0 <= k < |r| && lists[k].id != d.id ==> r[k] == lists[k]
    ensures forall k :: 0 <= k < |r| && lists[k].id == d.id ==> r[k].name == d.newName && r[k].words == d.words
  {
    seq(|lists|, k requires 0 <= k < |lists| =>
      if lists[k].id == d.id then lists[k].(name := d.newName, words := d.words) else lists[k])
  }

  /** Saving an untouched draft of a list changes nothing when identifiers are unique. */
  lemma SaveUntouchedDraft(lists: seq<WordList>, k: nat)
    requires UniqueIds(lists) && k < |lists|
    ensures ApplyEdit(lists, Draft(lists[k].id, lists[k].name, lists[k].words, lists[k].name)) == lists
  {
    var l := lists[k];
    var r := ApplyEdit(lists, Draft(l.id, l.name, l.words, l.name));
    forall j | 0 <= j < |lists|
      ensures r[j] == lists[j]
    {
      if j != k {
        assert lists[j].id != lists[k].id;
      }
    }
  }

  /** `addWordToExistingList` and `addWordToTemp`: the trimmed word is appended when it is not blank. */
  function AppendWord(words: seq<string>, w: string): (r: seq<string>)
    ensures Trim(w) != [] ==> r == words + [Trim(w)]
    ensures Trim(w) == [] ==> r == words
  {
    if Trim(w) != [] then words + [Trim(w)] else words
  }

  /** Appending keeps a list of clean words clean. */
  lemma AppendKeepsClean(words: seq<string>, w: string)
    requires Clean(words)
    ensures Clean(AppendWord(words, w))
  {
    TrimIdempotent(w);
  }

  /** A clean word is matched when typed as it is: every stored word can be answered. */
  lemma CleanWordMatchesItself(w: string)
    requires CleanWord(w)
    ensures Matches(w, w)
  {
    TargetMatchesItself(w);
  }

  /** `removeWordFromList(i)`: the words whose position is not `i`, in order. */
  function RemoveAt(words: seq<string>, i: int): (r: seq<string>)
    ensures 0 <= i < |words| ==> r == words[..i] + words[i + 1..]
    ensures !(0 <= i < |words|) ==> r == words
  {
    if words == [] then []
    else
      var rest := RemoveAt(words[1..], i - 1);
      if i == 0 then rest
      else
        assert 0 < i < |words| ==> words[1..][..i - 1] == words[1..i] && words[1..][i..] == words[i + 1..];
        [words[0]] + rest
  }

  /** Removing a word keeps a list of clean words clean. */
  lemma RemoveKeepsClean(words: seq<string>, i: int)
    requires Clean(words)
    ensures Clean(RemoveAt(words, i))
  {
    if 0 <= i < |words| {
      assert RemoveAt(words, i) == words[..i] + words[i + 1..];
      assert forall w :: w in words[..i] || w in words[i + 1..] ==> w in words;
    }
  }

  /** `deleteList(id)`: the lists with another identifier, in order. */
  function WithoutId(lists: seq<WordList>, id: int): (r: seq<WordList>)
    ensures |r| <= |lists|
    ensures forall x :: x in r <==> x in lists && x.id != id
  {
    if lists == [] then [] else (if lists[0].id != id then [lists[0]] else []) + WithoutId(lists[1..], id)
  }

  /** Deleting distributes over concatenation, so the remaining lists keep their order. */
  lemma {:induction false} WithoutIdConcat(a: seq<WordList>, b: seq<WordList>, id: int)
    ensures WithoutId(a + b, id) == WithoutId(a, id) + WithoutId(b, id)
  {
    if a != [] {
      var head := if a[0].id != id then [a[0]] else [];
      assert (a + b)[0] == a[0] && (a + b)[1..] == a[1..] + b;
      calc {
        WithoutId(a + b, id);
        head + WithoutId(a[1..] + b, id);
        { WithoutIdConcat(a[1..], b, id); }
        head + (WithoutId(a[1..], id) + WithoutId(b, id));
        (head + WithoutId(a[1..], id)) + WithoutId(b, id);
        WithoutId(a, id) + WithoutId(b, id);
      }
    } else {
      assert a + b == b;
    }
  }

  /** Deleting loses no other list and duplicates none: each occurs as often as before. */
  lemma {:induction false} WithoutIdCounts(lists: seq<WordList>, id: int, x: WordList)
    ensures multiset(WithoutId(lists, id))[x] == if x.id == id then 0 else multiset(lists)[x]
  {
    if lists != [] {
      WithoutIdCounts(lists[1..], id, x);
      assert lists == [lists[0]] + lists[1..];
      assert multiset(lists) == multiset{lists[0]} + multiset(lists[1..]);
      var head := if lists[0].id != id then [lists[0]] else [];
      assert WithoutId(lists, id) == head + WithoutId(lists[1..], id);
      assert multiset(WithoutId(lists, id)) == multiset(head) + multiset(WithoutId(lists[1..], id));
    }
  }

  /** Deleting an identifier no list has changes nothing. */
  lemma {:induction false} WithoutMissingId(lists: seq<WordList>, id: int)
    requires forall k :: 0 <= k < |lists| ==> lists[k].id != id
    ensures WithoutId(lists, id) == lists
  {
    if lists != [] {
      WithoutMissingId(lists[1..], id);
      assert lists == [lists[0]] + lists[1..];
    }
  }

  /** Deleting keeps identifiers unique. */
  lemma {:induction false} WithoutIdKeepsUnique(lists: seq<WordList>, id: int)
    requires UniqueIds(lists)
    ensures UniqueIds(WithoutId(lists, id))
  {
    if lists != [] {
      WithoutIdKeepsUnique(lists[1..], id);
      var rest := WithoutId(lists[1..], id);
      if lists[0].id != id {
        forall j | 0 <= j < |rest|
          ensures rest[j].id != lists[0].id
        {
          assert rest[j] in lists[1..];
          var p :| 0 <= p < |lists[1..]| && lists[1..][p] == rest[j];
          assert lists[p + 1] == rest[j];
        }
      }
    }
  }

  /** The whole state of the component. */
  datatype App = App(
    view: View,
    lists: seq<WordList>,
    selected: Option<WordList>,
    editing: Option<Draft>,
    newListName: string,
    newWord: string,
    temp: seq<string>,
    index: nat,
    userInput: string,
    feedback: OldFeedback,
    isCorrect: Option<bool>,
    statuses: seq<Status>,
    showCelebration: bool,
    timers: seq<OldTimer>)

  /** The state the component mounts with, over the given lists. */
  function Initial(lists: seq<WordList>): (a: App)
    ensures a.view == Menu && a.lists == lists && a.selected.None? && a.timers == []
  {
    App(Menu, lists, None, None, [], [], [], 0, [], NoFeedback, None, [], false, [])
  }

  /** The part of the state a practice session reads and writes. */
  datatype Session = Session(
    selected: Option<WordList>, index: nat, userInput: string, feedback: OldFeedback,
    isCorrect: Option<bool>, statuses: seq<Status>, showCelebration: bool, timers: seq<OldTimer>)

  function SessionOf(a: App): Session {
    Session(a.selected, a.index, a.userInput, a.feedback, a.isCorrect, a.statuses, a.showCelebration, a.timers)
  }

  /** No pending advance leads past the last of `n` words. */
  predicate AdvancesBelow(timers: seq<OldTimer>, n: nat) {
    forall k :: 0 <= k < |timers| ==> (timers[k].Advance? ==> timers[k].from + 1 < n)
  }

  /**
    A session is under way and the current word exists: one status per word
    of the selected list and the index on a word. This is all `handleSubmit`
    reads.
  */
  predicate WordExists(a: App) {
    a.selected.Some? && |a.statuses| == |a.selected.value.words| && a.index < |a.selected.value.words|
  }

  /** The current word exists and no pending advance leads beyond the last word. */
  predicate InRange(a: App) {
    WordExists(a) && AdvancesBelow(a.timers, |a.selected.value.words|)
  }

  /** The menu's `startEditing(list)`: a draft of the list, named as the list. */
  function BeginEdit(a: App, l: WordList): (r: App)
    ensures r.view == Edit && r.editing == Some(Draft(l.id, l.name, l.words, l.name))
    ensures r == a.(view := Edit, editing := r.editing)
  {
    a.(view := Edit, editing := Some(Draft(l.id, l.name, l.words, l.name)))
  }

  /** The save button of the editor is enabled for a named, non-empty draft. */
  predicate CanSave(a: App) {
    a.editing.Some? && Trim(a.editing.value.newName) != [] && a.editing.value.words != []
  }

  /** `saveEditedList`. */
  function SaveEdited(a: App): (r: App)
    requires a.editing.Some?
    ensures r.lists == ApplyEdit(a.lists, a.editing.value) && r.editing.None? && r.view == Menu
    ensures SessionOf(r) == SessionOf(a)
    ensures UniqueIds(a.lists) ==> UniqueIds(r.lists)
  {
    a.(lists := ApplyEdit(a.lists, a.editing.value), editing := None, view := Menu)
  }

  /** `addWordToExistingList`: the draft gains the trimmed word and the field is cleared, unless the word is blank. */
  function AddWordToDraft(a: App): (r: App)
    requires a.editing.Some?
    ensures r.editing.Some? && r.editing.value.words == AppendWord(a.editing.value.words, a.newWord)
    ensures r.editing.value == a.editing.value.(words := r.editing.value.words)
    ensures Trim(a.newWord) == [] ==> r == a
    ensures Trim(a.newWord) != [] ==> r.newWord == []
    ensures SessionOf(r) == SessionOf(a) && r.lists == a.lists
  {
    if Trim(a.newWord) != [] then
      a.(editing := Some(a.editing.value.(words := AppendWord(a.editing.value.words, a.newWord))), newWord := [])
    else a
  }

  /** `removeWordFromList(i)`. */
  function RemoveWordFromDraft(a: App, i: int): (r: App)
    requires a.editing.Some?
    ensures r.editing == Some(a.editing.value.(words := RemoveAt(a.editing.value.words, i)))
    ensures r == a.(editing := r.editing)
  {
    a.(editing := Some(a.editing.value.(words := RemoveAt(a.editing.value.words, i))))
  }

  /** `deleteList(id)`. */
  function Delete(a: App, id: int): (r: App)
    ensures r.lists == WithoutId(a.lists, id)
    ensures r == a.(lists := r.lists)
  {
    a.(lists := WithoutId(a.lists, id))
  }

  /** `addWordToTemp`: the new list's words gain the trimmed word, unless it is blank. */
  function AddToTemp(a: App): (r: App)
    ensures r.temp == AppendWord(a.temp, a.newWord)
    ensures Trim(a.newWord) == [] ==> r == a
    ensures Trim(a.newWord) != [] ==> r == a.(temp := r.temp, newWord := [])
  {
    if Trim(a.newWord) != [] then a.(temp := AppendWord(a.temp, a.newWord), newWord := []) else a
  }

  /** The create button is enabled for a named list with at least one word. */
  predicate CanCreate(a: App): (b: bool)
    ensures b ==> a.newListName != [] && a.temp != []
  {
    Trim(a.newListName) != [] && a.temp != []
  }

  /**
    `createNewList`, at time `now` (`Date.now()` gives the identifier). Only
    the name is checked here, and it is stored untrimmed; the button also
    needs a word.
  */
  function Create(a: App, now: int): (r: App)
    ensures Trim(a.newListName) == [] ==> r == a
    ensures Trim(a.newListName) != [] ==>
              r == a.(lists := a.lists + [WordList(now, a.newListName, a.temp)], newListName := [], temp := [])
  {
    if Trim(a.newListName) != [] then
      a.(lists := a.lists + [WordList(now, a.newListName, a.temp)], newListName := [], temp := [])
    else a
  }

  /** A list created at a time no identifier equals keeps identifiers unique. */
  lemma CreateKeepsUnique(a: App, now: int)
    requires UniqueIds(a.lists) && forall k :: 0 <= k < |a.lists| ==> a.lists[k].id != now
    ensures UniqueIds(Create(a, now).lists)
  {
  }

  /** Every list of the menu has a word: the enabled buttons keep it so. */
  predicate ListsNonEmpty(lists: seq<WordList>) {
    forall k :: 0 <= k < |lists| ==> lists[k].words != []
  }

  lemma EnabledButtonsKeepListsNonEmpty(a: App, now: int)
    requires ListsNonEmpty(a.lists)
    ensures CanCreate(a) ==> ListsNonEmpty(Create(a, now).lists)
    ensures CanSave(a) ==> ListsNonEmpty(SaveEdited(a).lists)
  {
  }

  /**
    `startPractice(list)`: the list is selected, every word starts fresh, and
    the turn is cleared. Pending callbacks are kept.
  */
  function Start(a: App, l: WordList): (r: App)
    ensures r.view == Practice && r.selected == Some(l) && r.index == 0 && r.userInput == [] && r.feedback == NoFeedback
    ensures r.statuses == InitialStatuses(|l.words|) && r.timers == a.timers
    ensures r == a.(selected := r.selected, index := 0, userInput := [], feedback := NoFeedback,
                    statuses := r.statuses, view := Practice)
  {
    a.(selected := Some(l), index := 0, userInput := [], feedback := NoFeedback,
       statuses := InitialStatuses(|l.words|), view := Practice)
  }

  /**
    A started session is in range exactly when the list has a word and no
    pending advance from an earlier session leads past its last word.
  */
  lemma StartInRange(a: App, l: WordList)
    ensures InRange(Start(a, l)) <==> l.words != [] && AdvancesBelow(a.timers, |l.words|)
    ensures WordExists(Start(a, l)) <==> l.words != []
  {
  }

  /** The submit button of a session is enabled for input that is not blank. */
  predicate SubmitEnabled(a: App): (b: bool)
    ensures b ==> a.userInput != []
  {
    Trim(a.userInput) != []
  }

  /** Each of the three buttons is enabled exactly when its text field is not all white space (and, to save or create, there is a word). */
  lemma GuardsIff(a: App)
    ensures CanSave(a) <==> a.editing.Some? && !AllWhite(a.editing.value.newName) && a.editing.value.words != []
    ensures CanCreate(a) <==> !AllWhite(a.newListName) && a.temp != []
    ensures SubmitEnabled(a) <==> !AllWhite(a.userInput)
  {
    if a.editing.Some? {
      TrimEmptyIff(a.editing.value.newName);
    }
    TrimEmptyIff(a.newListName);
    TrimEmptyIff(a.userInput);
  }

  /** The typed input matches the current word. */
  predicate Correct(a: App)
    requires WordExists(a)
  {
    Matches(a.userInput, a.selected.value.words[a.index])
  }

  predicate OnLast(a: App)
    requires WordExists(a)
  {
    a.index + 1 == |a.selected.value.words|
  }

  /**
    `handleSubmit`: a match reveals the current word, celebrates a first try
    and, before the last word, schedules the advance; a miss clears the
    word's first-try flag. Only the current word's status changes.
  */
  function Submit(a: App): (r: App)
    requires WordExists(a) && SubmitEnabled(a)
    ensures WordExists(r) && (InRange(a) ==> InRange(r))
    ensures r.selected == a.selected && r.index == a.index && r.userInput == a.userInput
    ensures r.isCorrect == Some(Correct(a))
    ensures r.statuses == a.statuses[a.index := Status(a.statuses[a.index].revealed || Correct(a),
                                                     a.statuses[a.index].firstTry && Correct(a))]
    ensures r.lists == a.lists && r.view == a.view
  {
    var t := a.(isCorrect := Some(Correct(a)));
    if Correct(a) then Matched(t) else Missed(t)
  }

  /** The matching branch of `handleSubmit`. */
  function Matched(a: App): (r: App)
    requires WordExists(a)
    ensures WordExists(r) && (InRange(a) ==> InRange(r))
    ensures r == a.(statuses := r.statuses, feedback := r.feedback, showCelebration := r.showCelebration, timers := r.timers)
    ensures r.statuses == a.statuses[a.index := a.statuses[a.index].(revealed := true)]
    ensures r.feedback == if OnLast(a) then Finished else Bravo
    ensures r.showCelebration == (a.showCelebration || a.statuses[a.index].firstTry)
    ensures r.timers == a.timers + (if a.statuses[a.index].firstTry then [EndCelebration] else [])
                                 + (if OnLast(a) then [] else [Advance(a.index)])
  {
    var i := a.index;
    var celebrated :=
      if a.statuses[i].firstTry then a.(showCelebration := true, timers := a.timers + [EndCelebration]) else a;
    var revealed := celebrated.(statuses := a.statuses[i := a.statuses[i].(revealed := true)], feedback := Bravo);
    if i < |a.selected.value.words| - 1 then revealed.(timers := revealed.timers + [Advance(i)])
    else revealed.(feedback := Finished)
  }

  /** The failing branch of `handleSubmit`. */
  function Missed(a: App): (r: App)
    requires WordExists(a)
    ensures WordExists(r) && (InRange(a) ==> InRange(r))
    ensures r == a.(statuses := r.statuses, feedback := TryAgain)
    ensures r.statuses == a.statuses[a.index := a.statuses[a.index].(firstTry := false)]
  {
    a.(statuses := a.statuses[a.index := a.statuses[a.index].(firstTry := false)], feedback := TryAgain)
  }

  /** A miss shows the retry message and schedules nothing. */
  lemma MissEffects(a: App)
    requires WordExists(a) && SubmitEnabled(a) && !Correct(a)
    ensures Submit(a).feedback == TryAgain && Submit(a).timers == a.timers
    ensures Submit(a).showCelebration == a.showCelebration
  {
    assert Submit(a) == Missed(a.(isCorrect := Some(false)));
  }

  /**
    A match celebrates a first try and schedules the end of the celebration,
    then the advance unless on the last word, where the session is announced
    finished instead.
  */
  lemma MatchEffects(a: App)
    requires WordExists(a) && SubmitEnabled(a) && Correct(a)
    ensures Submit(a).feedback == (if OnLast(a) then Finished else Bravo)
    ensures Submit(a).showCelebration == (a.showCelebration || a.statuses[a.index].firstTry)
    ensures Submit(a).timers == a.timers + (if a.statuses[a.index].firstTry then [EndCelebration] else [])
                                         + (if OnLast(a) then [] else [Advance(a.index)])
  {
    assert Submit(a) == Matched(a.(isCorrect := Some(true)));
  }

  /** `firstTry` never comes back and `revealed` is never taken back. */
  lemma SubmitMonotone(a: App)
    requires WordExists(a) && SubmitEnabled(a)
    ensures var r := Submit(a);
            forall k :: 0 <= k < |a.statuses| ==>
              (r.statuses[k].firstTry ==> a.statuses[k].firstTry) && (a.statuses[k].revealed ==> r.statuses[k].revealed)
  {
    var st := Status(a.statuses[a.index].revealed || Correct(a), a.statuses[a.index].firstTry && Correct(a));
    assert Submit(a).statuses == a.statuses[a.index := st];
    UpdateMonotone(a.statuses, a.index, st);
  }

  /** `handleReset`: every word fresh again, back to the first word, turn cleared. Pending callbacks are kept. */
  function Reset(a: App): (r: App)
    requires a.selected.Some?
    ensures r.statuses == InitialStatuses(|a.selected.value.words|) && r.index == 0
    ensures r.userInput == [] && r.feedback == NoFeedback && r.isCorrect.None?
    ensures r.timers == a.timers && r.selected == a.selected
  {
    a.(statuses := InitialStatuses(|a.selected.value.words|), index := 0, userInput := [], feedback := NoFeedback, isCorrect := None)
  }

  /** The oldest pending callback runs and leaves the queue. */
  function Fire(a: App): (r: App)
    requires a.timers != []
    ensures r.timers == a.timers[1..] && r.statuses == a.statuses && r.selected == a.selected
    ensures a.timers[0].Advance? ==> r.index == a.timers[0].from + 1 && r.userInput == [] && r.feedback == NoFeedback
    ensures a.timers[0] == EndCelebration ==> r.index == a.index && !r.showCelebration
  {
    var rest := a.(timers := a.timers[1..]);
    match a.timers[0]
    case EndCelebration => rest.(showCelebration := false)
    case Advance(from) => rest.(index := from + 1, userInput := [], feedback := NoFeedback, isCorrect := None)
  }

  /** Resetting and running a callback keep a session in range. */
  lemma ResetAndFireKeepRange(a: App)
    requires InRange(a)
    ensures InRange(Reset(a))
    ensures a.timers != [] ==> InRange(Fire(a))
  {
  }

  /** The index only moves forward through an advance, and never from the last word. */
  lemma NoAdvanceFromLast(a: App)
    requires WordExists(a) && SubmitEnabled(a) && OnLast(a)
    ensures forall k :: |a.timers| <= k < |Submit(a).timers| ==> !Submit(a).timers[k].Advance?
  {
    if Correct(a) {
      MatchEffects(a);
      assert Submit(a).timers == a.timers + (if a.statuses[a.index].firstTry then [EndCelebration] else []);
    } else {
      MissEffects(a);
    }
  }

  /**
    A reset while an advance is pending does not stop it: the session
    starts over at the first word, and then jumps to the word after the one
    that was answered.
  */
  lemma ResetKeepsPendingAdvance(a: App)
    requires WordExists(a) && SubmitEnabled(a) && Correct(a) && !OnLast(a) && a.timers == []
    ensures var b := Reset(Submit(a));
            && b.index == 0
            && |b.timers| == (if a.statuses[a.index].firstTry then 2 else 1)
            && b.timers[|b.timers| - 1] == Advance(a.index)
            && Fire(b).index == (if a.statuses[a.index].firstTry then 0 else a.index + 1)
  {
    var celebrated := a.statuses[a.index].firstTry;
    var m := Submit(a);
    MatchBeforeLastTimers(a);
    assert m.selected.Some? && m.timers == (if celebrated then [EndCelebration] else []) + [Advance(a.index)];
    ResetThenFire(m, celebrated, a.index);
  }

  /** With nothing pending, a match before the last word leaves the celebration's end (first try only) and the advance. */
  lemma MatchBeforeLastTimers(a: App)
    requires WordExists(a) && SubmitEnabled(a) && Correct(a) && !OnLast(a) && a.timers == []
    ensures Submit(a).selected.Some?
    ensures Submit(a).timers == (if a.statuses[a.index].firstTry then [EndCelebration] else []) + [Advance(a.index)]
  {
    MatchEffects(a);
    var celebrate := if a.statuses[a.index].firstTry then [EndCelebration] else [];
    assert (if OnLast(a) then [] else [Advance(a.index)]) == [Advance(a.index)];
    assert a.timers + celebrate == celebrate;
  }

  /** A reset keeps the callbacks a match scheduled, and the first of them then runs. */
  lemma ResetThenFire(m: App, celebrated: bool, i: nat)
    requires m.selected.Some? && m.timers == (if celebrated then [EndCelebration] else []) + [Advance(i)]
    ensures Reset(m).index == 0 && Reset(m).timers == m.timers
    ensures |m.timers| == (if celebrated then 2 else 1) && m.timers[|m.timers| - 1] == Advance(i)
    ensures Fire(Reset(m)).index == if celebrated then 0 else i + 1
  {
    assert m.timers[0] == if celebrated then EndCelebration else Advance(i);
  }

  /**
    Starting a shorter list while an advance from a later word of the
    previous list is pending leaves a callback that moves past the new
    list's last word. Until it runs, the new list's first word can still be
    answered.
  */
  lemma StaleAdvanceLeavesList(a: App, l: WordList)
    requires a.timers != [] && a.timers[0].Advance? && a.timers[0].from + 1 >= |l.words|
    ensures !InRange(Start(a, l))
    ensures l.words != [] ==> WordExists(Start(a, l))
    ensures Fire(Start(a, l)).index >= |l.words|
  {
    StartInRange(a, l);
  }

  /** Every list operation of the menu and the editor leaves the practice session alone. */
  lemma EditsLeaveSessionAlone(a: App, l: WordList, i: int, id: int, now: int)
    ensures SessionOf(BeginEdit(a, l)) == SessionOf(a)
    ensures a.editing.Some? ==> SessionOf(RemoveWordFromDraft(a, i)) == SessionOf(a)
    ensures SessionOf(Delete(a, id)) == SessionOf(a)
    ensures SessionOf(AddToTemp(a)) == SessionOf(a)
    ensures SessionOf(Create(a, now)) == SessionOf(a)
  {
  }

  /** The state of the component held in fields; the statuses array is replaced on start and reset and updated in place on submit. */
  class DicteeApp {
    var view: View
    var lists: seq<WordList>
    var selected: Option<WordList>
    var editing: Option<Draft>
    var newListName: string
    var newWord: string
    var temp: seq<string>
    var index: nat
    var userInput: string
    var feedback: OldFeedback
    var isCorrect: Option<bool>
    var statuses: array<Status>
    var showCelebration: bool
    var timers: seq<OldTimer>

    function State(): App
      reads this, statuses
    {
      App(view, lists, selected, editing, newListName, newWord, temp, index, userInput, feedback, isCorrect,
          statuses[..], showCelebration, timers)
    }

    constructor (initial: seq<WordList>)
      ensures State() == Initial(initial)
    {
      view, lists, selected, editing := Menu, initial, None, None;
      newListName, newWord, temp := [], [], [];
      index, userInput, feedback, isCorrect := 0, [], NoFeedback, None;
      statuses := new Status[0];
      showCelebration, timers := false, [];
    }

    method StartEditing(l: WordList)
      modifies this
      ensures State() == BeginEdit(old(State()), l)
    {
      editing := Some(Draft(l.id, l.name, l.words, l.name));
      view := Edit;
    }

    /** Typing into the editor's name field. */
    method SetDraftName(name: string)
      requires editing.Some?
      modifies this
      ensures State() == old(State()).(editing := Some(old(editing).value.(newName := name)))
    {
      editing := Some(editing.value.(newName := name));
    }

    /** Typing into a word field. */
    method SetNewWord(w: string)
      modifies this
      ensures State() == old(State()).(newWord := w)
    {
      newWord := w;
    }

    /** Typing into the new list's name field. */
    method SetNewListName(name: string)
      modifies this
      ensures State() == old(State()).(newListName := name)
    {
      newListName := name;
    }

    /** Typing the answer. */
    method SetUserInput(text: string)
      modifies this
      ensures State() == old(State()).(userInput := text)
    {
      userInput := text;
    }

    method SaveEditedList()
      requires editing.Some?
      modifies this
      ensures State() == SaveEdited(old(State()))
    {
      lists := ApplyEdit(lists, editing.value);
      editing := None;
      view := Menu;
    }

    method AddWordToExistingList()
      requires editing.Some?
      modifies this
      ensures State() == AddWordToDraft(old(State()))
    {
      if Trim(newWord) != [] {
        editing := Some(editing.value.(words := AppendWord(editing.value.words, newWord)));
        newWord := [];
      }
    }

    method RemoveWordFromList(i: int)
      requires editing.Some?
      modifies this
      ensures State() == RemoveWordFromDraft(old(State()), i)
    {
      editing := Some(editing.value.(words := RemoveAt(editing.value.words, i)));
    }

    method DeleteList(id: int)
      modifies this
      ensures State() == Delete(old(State()), id)
    {
      lists := WithoutId(lists, id);
    }

    method CreateNewList(now: int)
      modifies this
      ensures State() == Create(old(State()), now)
    {
      if Trim(newListName) != [] {
        lists := lists + [WordList(now, newListName, temp)];
        newListName := [];
        temp := [];
      }
    }

    method AddWordToTemp()
      modifies this
      ensures State() == AddToTemp(old(State()))
    {
      if Trim(newWord) != [] {
        temp := AppendWord(temp, newWord);
        newWord := [];
      }
    }

    /** `initializeWordStatuses`: a fresh array, one hidden first-try status per word. */
    method InitializeWordStatuses(words: seq<string>)
      modifies this
      ensures fresh(statuses) && statuses[..] == InitialStatuses(|words|)
      ensures State() == old(State()).(statuses := InitialStatuses(|words|))
    {
      statuses := new Status[|words|](_ => Fresh);
    }

    method StartPractice(l: WordList)
      modifies this
      ensures fresh(statuses)
      ensures State() == Start(old(State()), l)
    {
      ghost var before := State();
      selected := Some(l);
      index := 0;
      userInput := [];
      feedback := NoFeedback;
      InitializeWordStatuses(l.words);
      view := Practice;
      assert State() == before.(selected := Some(l), index := 0, userInput := [], feedback := NoFeedback,
                                statuses := InitialStatuses(|l.words|), view := Practice);
    }

    method HandleSubmit()
      requires WordExists(State()) && SubmitEnabled(State())
      modifies this, statuses
      ensures State() == Submit(old(State()))
    {
      var correct := Matches(userInput, selected.value.words[index]);
      isCorrect := Some(correct);
      if correct {
        Hit();
      } else {
        Miss();
      }
    }

    /** The failing branch of `handleSubmit`, clearing the current word's first-try flag in place. */
    method Miss()
      requires WordExists(State())
      modifies this, statuses
      ensures State() == Missed(old(State()))
    {
      statuses[index] := statuses[index].(firstTry := false);
      feedback := TryAgain;
    }

    /** The matching branch of `handleSubmit`, revealing the current word in place. */
    method Hit()
      requires WordExists(State())
      modifies this, statuses
      ensures State() == Matched(old(State()))
    {
      var i := index;
      if statuses[i].firstTry {
        showCelebration := true;
        timers := timers + [EndCelebration];
      }
      statuses[i] := statuses[i].(revealed := true);
      feedback := Bravo;
      if i < |selected.value.words| - 1 {
        timers := timers + [Advance(i)];
      } else {
        feedback := Finished;
      }
    }

    method HandleReset()
      requires selected.Some?
      modifies this
      ensures fresh(statuses)
      ensures State() == Reset(old(State()))
    {
      InitializeWordStatuses(selected.value.words);
      index := 0;
      userInput := [];
      feedback := NoFeedback;
      isCorrect := None;
    }

    method FireTimer()
      requires timers != []
      modifies this
      ensures State() == Fire(old(State()))
    {
      ghost var rest := State().(timers := timers[1..]);
      var t := timers[0];
      timers := timers[1..];
      match t {
        case EndCelebration =>
          showCelebration := false;
          assert State() == rest.(showCelebration := false);
        case Advance(from) =>
          index := from + 1;
          userInput := [];
          feedback := NoFeedback;
          isCorrect := None;
          assert State() == rest.(index := from + 1, userInput := [], feedback := NoFeedback, isCorrect := None);
      }
    }

    /** The menu buttons of the editor and of a session. */
    method ReturnToMenu()
      modifies this
      ensures State() == old(State()).(view := Menu)
    {
      view := Menu;
    }
  }
}
