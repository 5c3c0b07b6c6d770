/**
  `DicteeStateManager`: a single storage slot holding the snapshot of an
  unfinished session, stamped with the time it was saved and discarded once it
  is more than 24 hours old.

  The slot is a field of `Store`; time is the caller's current time in
  milliseconds; `fails` says that the storage access of this call throws (the
  source catches every such error). A stored value that does not parse as a
  snapshot is `Unparseable`. A `lastUpdated` that does not parse as a date is
  `None`: the source's age test then compares NaN and is false, so such a
  snapshot never expires.
*/
module Progress {
  import opened Wrappers

  /** One word's status inside a snapshot. */
  datatype SavedStatus = SavedStatus(revealed: bool, firstTry: bool, attempts: seq<string>)

  /** `DicteeProgress`. */
  datatype Snapshot = Snapshot(
    listId: int,
    currentWordIndex: int,
    userInput: string,
    wordStatuses: seq<SavedStatus>,
    lastUpdated: Option<int>)

  /** What the storage slot holds. */
  datatype Stored = Parsed(snapshot: Snapshot) | Unparseable

  /** 24 hours in milliseconds. */
  const MaxAge: int := 24 * 60 * 60 * 1000

  /** More than `MaxAge` has passed since `stamp`; an unreadable stamp never expires. */
  predicate Expired(stamp: Option<int>, now: int): (b: bool)
    ensures b ==> stamp.Some?
    ensures stamp.Some? && now <= stamp.value + MaxAge ==> !b
  {
    stamp.Some? && now - stamp.value > MaxAge
  }

  /** Once expired, a stamp stays expired: waiting longer never revives a snapshot. */
  lemma ExpiredStaysExpired(stamp: Option<int>, now: int, later: int)
    requires Expired(stamp, now) && now <= later
    ensures Expired(stamp, later)
  {
  }

  /** The slot after `saveProgress`: the snapshot with its stamp replaced by `now`. */
  function Save(slot: Option<Stored>, p: Snapshot, now: int, fails: bool): (r: Option<Stored>)
    ensures fails ==> r == slot
    ensures !fails ==> r.Some? && r.value.Parsed? && r.value.snapshot.lastUpdated == Some(now)
                       && r.value.snapshot == p.(lastUpdated := r.value.snapshot.lastUpdated)
  {
    if fails then slot else Some(Parsed(p.(lastUpdated := Some(now))))
  }

  /** The slot after `clearProgress`. */
  function Clear(slot: Option<Stored>, fails: bool): (r: Option<Stored>)
    ensures fails ==> r == slot
    ensures !fails ==> r.None?
  {
    if fails then slot else None
  }

  /** The value `loadProgress` returns and the slot it leaves. */
  datatype Loaded = Loaded(result: Option<Snapshot>, slot: Option<Stored>)

  /** `loadProgress`: an unexpired stored snapshot, or nothing; an expired one is removed. */
  function Load(slot: Option<Stored>, now: int, fails: bool): (r: Loaded)
    ensures r.result.Some? <==> !fails && slot.Some? && slot.value.Parsed?
                                && !Expired(slot.value.snapshot.lastUpdated, now)
    ensures r.result.Some? ==> slot == Some(Parsed(r.result.value))
    ensures r.slot != slot ==> !fails && slot.Some? && slot.value.Parsed?
                               && Expired(slot.value.snapshot.lastUpdated, now) && r.slot.None?
    ensures !fails && slot.Some? && slot.value.Parsed? && Expired(slot.value.snapshot.lastUpdated, now)
            ==> r.slot.None?
  {
    if fails then Loaded(None, slot)
    else match slot
      case None => Loaded(None, None)
      case Some(Unparseable) => Loaded(None, slot)
      case Some(Parsed(p)) =>
        if Expired(p.lastUpdated, now) then Loaded(None, Clear(slot, false))
        else Loaded(Some(p), slot)
  }

  /** `hasSavedProgress(id)`: loading yields a snapshot of that list. */
  predicate HasSaved(slot: Option<Stored>, id: int, now: int, fails: bool): (b: bool)
    ensures b <==> !fails && slot.Some? && slot.value.Parsed? && slot.value.snapshot.listId == id
                   && !Expired(slot.value.snapshot.lastUpdated, now)
  {
    var r := Load(slot, now, fails);
    r.result.Some? && r.result.value.listId == id
  }

  /** Saving and then loading within 24 hours gives back the snapshot, stamped with the save time. */
  lemma SaveThenLoad(slot: Option<Stored>, p: Snapshot, saved: int, now: int)
    requires now - saved <= MaxAge
    ensures Load(Save(slot, p, saved, false), now, false).result == Some(p.(lastUpdated := Some(saved)))
  {
  }

  /** Exactly 24 hours after the save the snapshot is still there; one millisecond later it is gone and the slot emptied. */
  lemma ExpiryBoundary(slot: Option<Stored>, p: Snapshot, saved: int)
    ensures Load(Save(slot, p, saved, false), saved + MaxAge, false).result.Some?
    ensures Load(Save(slot, p, saved, false), saved + MaxAge + 1, false) == Loaded(None, None)
  {
  }

  /** After a clear nothing is loaded. */
  lemma ClearThenLoad(slot: Option<Stored>, now: int, fails: bool)
    ensures Load(Clear(slot, false), now, fails).result.None?
  {
  }

  /** Loading twice at the same time gives the same answer: the first load leaves nothing the second would read differently. */
  lemma LoadStable(slot: Option<Stored>, now: int)
    ensures Load(Load(slot, now, false).slot, now, false).result == Load(slot, now, false).result
  {
  }

  /** The storage slot `dictee_current_progress`. */
  class Store {
    var slot: Option<Stored>

    constructor (initial: Option<Stored>)
      ensures slot == initial
    {
      slot := initial;
    }

    method SaveProgress(p: Snapshot, now: int, fails: bool)
      modifies this
      ensures slot == Save(old(slot), p, now, fails)
    {
      if !fails {
        slot := Some(Parsed(p.(lastUpdated := Some(now))));
      }
    }

    method ClearProgress(fails: bool)
      modifies this
      ensures slot == Clear(old(slot), fails)
    {
      if !fails {
        slot := None;
      }
    }

    method LoadProgress(now: int, fails: bool) returns (r: Option<Snapshot>)
      modifies this
      ensures r == Load(old(slot), now, fails).result
      ensures slot == Load(old(slot), now, fails).slot
    {
      if fails {
        return None;
      }
      match slot {
        case None =>
          return None;
        case Some(Unparseable) =>
          return None;
        case Some(Parsed(p)) =>
          if Expired(p.lastUpdated, now) {
            ClearProgress(false);
            return None;
          }
          return Some(p);
      }
    }

    method HasSavedProgress(id: int, now: int, fails: bool) returns (b: bool)
      modifies this
      ensures b == HasSaved(old(slot), id, now, fails)
      ensures slot == Load(old(slot), now, fails).slot
    {
      var p := LoadProgress(now, fails);
      b := p.Some? && p.value.listId == id;
    }
  }
}
