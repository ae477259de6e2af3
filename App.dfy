/** The session state of src/App.jsx: which deity is selected, the last drawn result and whether
    the result modal is open, changed by four handlers. The view (menu or drawing scene) and the
    selected deity's record are derived from the selected key. */
module App {
  import opened Wrappers
  import opened Fortunes

  /** A deity's entry in the fortune database; `theme` only picks colours. */
  datatype Deity = Deity(name: string, shortName: string, theme: string, data: seq<Fortune>)

  /** `fortuneDatabase`: deity key to deity record (src/data/fortuneDatabase.js is not part of this
      model; any map will do). */
  type Database = map<string, Deity>

  /** JavaScript truthiness of `currentDeityKey`: `null` and the empty string are false. */
  predicate KeySet(key: Option<string>) {
    key.Some? && key.value != ""
  }

  /** `currentDeityKey ? fortuneDatabase[currentDeityKey] : null`; a key the database lacks gives
      `undefined`, also None here. */
  function CurrentDeity(db: Database, key: Option<string>): (d: Option<Deity>)
    ensures d.Some? <==> KeySet(key) && key.value in db
    ensures d.Some? ==> d.value == db[key.value]
  {
    if KeySet(key) && key.value in db then Some(db[key.value]) else None
  }

  /** Every key the selection menu offers is a key of the database; with those keys (the empty
      string never being one), the current deity is missing exactly when no key is selected. */
  lemma CurrentDeityMissingIffNoKey(db: Database, key: Option<string>)
    requires "" !in db
    requires key.Some? ==> key.value in db
    ensures CurrentDeity(db, key).None? <==> key.None?
  {
  }

  /** What fills the screen below the header. */
  datatype View = Menu | Scene(deity: Option<Deity>)

  function ViewOf(db: Database, key: Option<string>): (v: View)
    ensures v.Menu? <==> !KeySet(key)
    ensures v.Scene? ==> v.deity == CurrentDeity(db, key)
  {
    if !KeySet(key) then Menu else Scene(CurrentDeity(db, key))
  }

  /** `showBack={!!currentDeityKey}`. */
  predicate ShowBack(key: Option<string>) {
    KeySet(key)
  }

  /** The back button and the drawing scene appear together; otherwise the menu is shown. */
  lemma BackButtonWithScene(db: Database, key: Option<string>)
    ensures ShowBack(key) <==> ViewOf(db, key).Scene?
    ensures !ShowBack(key) <==> ViewOf(db, key) == Menu
  {
  }

  datatype SessionState = SessionState(currentDeityKey: Option<string>, result: Option<Fortune>, isModalOpen: bool)

  function InitialSession(): SessionState {
    SessionState(None, None, false)
  }

  /** `handleSelectDeity`: only the key changes. */
  function AfterSelectDeity(s: SessionState, key: string): (t: SessionState)
    ensures t.currentDeityKey == Some(key)
    ensures t.result == s.result && t.isModalOpen == s.isModalOpen
  {
    s.(currentDeityKey := Some(key))
  }

  /** `handleBack`: all three fields cleared together. */
  function AfterBack(s: SessionState): (t: SessionState)
    ensures t == InitialSession()
  {
    SessionState(None, None, false)
  }

  /** `handleDrawComplete`: the result is stored and the modal opens; `undefined` (a draw from an
      empty list) is stored as None. */
  function AfterDrawComplete(s: SessionState, drawn: Option<Fortune>): (t: SessionState)
    ensures t.result == drawn && t.isModalOpen
    ensures t.currentDeityKey == s.currentDeityKey
  {
    s.(result := drawn, isModalOpen := true)
  }

  /** `handleCloseModal`: the modal closes; key and result are kept. */
  function AfterCloseModal(s: SessionState): (t: SessionState)
    ensures !t.isModalOpen
    ensures t.currentDeityKey == s.currentDeityKey && t.result == s.result
  {
    s.(isModalOpen := false)
  }

  /** Going back twice is going back once. */
  lemma BackIdempotent(s: SessionState)
    ensures AfterBack(AfterBack(s)) == AfterBack(s)
  {
  }

  /** Closing the modal twice is closing it once, and reopening with the kept result restores the
      state the draw produced. */
  lemma CloseThenReopen(s: SessionState, drawn: Option<Fortune>)
    ensures AfterCloseModal(AfterCloseModal(s)) == AfterCloseModal(s)
    ensures AfterDrawComplete(AfterCloseModal(AfterDrawComplete(s, drawn)), drawn) == AfterDrawComplete(s, drawn)
  {
  }

  /** `handleDrawComplete` does not look at the selected key: a draw that completes after the user
      went back (its timer is not cancelled when the scene unmounts) opens the modal over the
      menu, with no deity name. */
  lemma DrawAfterBackOpensOverMenu(db: Database, s: SessionState, f: Fortune)
    ensures var t := AfterDrawComplete(AfterBack(s), Some(f));
      && t.isModalOpen && t.result == Some(f)
      && ViewOf(db, t.currentDeityKey) == Menu && CurrentDeity(db, t.currentDeityKey).None?
  {
  }

  /** The component's state as React holds it. */
  class Session {
    var currentDeityKey: Option<string>
    var result: Option<Fortune>
    var isModalOpen: bool

    function State(): SessionState
      reads this
    {
      SessionState(currentDeityKey, result, isModalOpen)
    }

    constructor ()
      ensures State() == InitialSession()
    {
      currentDeityKey := None;
      result := None;
      isModalOpen := false;
    }

    method HandleSelectDeity(key: string)
      modifies this
      ensures State() == AfterSelectDeity(old(State()), key)
    {
      currentDeityKey := Some(key);
    }

    method HandleBack()
      modifies this
      ensures State() == AfterBack(old(State()))
    {
      currentDeityKey := None;
      result := None;
      isModalOpen := false;
    }

    method HandleDrawComplete(drawn: Option<Fortune>)
      modifies this
      ensures State() == AfterDrawComplete(old(State()), drawn)
    {
      result := drawn;
      isModalOpen := true;
    }

    method HandleCloseModal()
      modifies this
      ensures State() == AfterCloseModal(old(State()))
    {
      isModalOpen := false;
    }
  }
}
