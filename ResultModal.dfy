/** The result modal of src/components/ResultModal.jsx: when it renders, how the auspice level is
    styled, and the two flags of its "save as image" button. The image library (`toPng`), the
    download link, `window.open` and `alert` are outside the model; each attempt's outcome is an
    input. */
module ResultModal {
  import opened Wrappers
  import opened Fortunes
  import App

  /** `if (!isOpen || !result) return null`: the modal shows only when open and holding a result. */
  predicate Renders(isOpen: bool, result: Option<Fortune>) {
    isOpen && result.Some?
  }

  /** Fed by the session of src/App.jsx: a completed draw with a result shows the modal, an empty
      draw (no data to pick from) does not, and closing it or going back hides it. */
  lemma ModalFollowsSession(s: App.SessionState, f: Fortune)
    ensures var t := App.AfterDrawComplete(s, Some(f)); Renders(t.isModalOpen, t.result)
    ensures var t := App.AfterDrawComplete(s, None); !Renders(t.isModalOpen, t.result)
    ensures var t := App.AfterCloseModal(s); !Renders(t.isModalOpen, t.result)
    ensures var t := App.AfterBack(s); !Renders(t.isModalOpen, t.result)
  {
  }

  /** The three looks `getLevelClass` chooses between (gray, red and amber backgrounds). */
  datatype LevelStyle = Gray | Red | Amber

  const Fall: char := '下'
  const Auspicious: char := '吉'

  /** `getLevelClass`: a level containing 下 is gray, even if it also contains 吉; one containing 吉
      (and no 下) is red; everything else, the empty level included, is amber. */
  function LevelClass(level: string): (c: LevelStyle)
    ensures c == Gray <==> Fall in level
    ensures c == Red <==> Fall !in level && Auspicious in level
    ensures c == Amber <==> Fall !in level && Auspicious !in level
  {
    if Fall in level then Gray
    else if Auspicious in level then Red
    else Amber
  }

  lemma LevelClassExamples()
    ensures LevelClass("下吉") == Gray && LevelClass("下下") == Gray
    ensures LevelClass("大吉") == Red && LevelClass("上吉") == Red
    ensures LevelClass("中平") == Amber && LevelClass("") == Amber
  {
    assert Fall == "下吉"[0] && Auspicious == "大吉"[1] && Auspicious == "上吉"[1];
  }

  /** `${deityName}` in a template literal: an absent name prints as "undefined". */
  function NameText(deityName: Option<string>): string {
    match deityName
    case Some(n) => n
    case None => "undefined"
  }

  const FileInfix: string := "靈籤_"
  const FileSuffix: string := ".png"

  /** The download name `${deityName}靈籤_${result.title}.png`. */
  function FileName(deityName: Option<string>, title: string): string {
    NameText(deityName) + FileInfix + title + FileSuffix
  }

  /** The title can be read back out of the file name: the name starts with the deity name and
      ends with ".png", and what lies between the infix and the suffix is the title. */
  lemma FileNameCarriesTitle(deityName: Option<string>, title: string)
    ensures var f := FileName(deityName, title);
      var a := |NameText(deityName)| + |FileInfix|;
      && a + |FileSuffix| <= |f|
      && f[..|NameText(deityName)|] == NameText(deityName)
      && f[|f| - |FileSuffix|..] == FileSuffix
      && f[a..|f| - |FileSuffix|] == title
  {
    var f := FileName(deityName, title);
    var n := NameText(deityName);
    assert f == n + FileInfix + title + FileSuffix;
  }

  /** Two results of one deity with different titles are saved under different names. */
  lemma FileNameInjective(deityName: Option<string>, t1: string, t2: string)
    requires FileName(deityName, t1) == FileName(deityName, t2)
    ensures t1 == t2
  {
    FileNameCarriesTitle(deityName, t1);
    FileNameCarriesTitle(deityName, t2);
  }

  /** The page title of the fallback window, `${deityName}靈籤 - ${result.title}`. */
  function WindowTitle(deityName: Option<string>, title: string): string {
    NameText(deityName) + "靈籤 - " + title
  }

  /** How one save attempt went outside the model: whether the first `toPng` and the link click
      completed, whether the fallback `toPng` completed, and whether `window.open` gave a window. */
  datatype SaveOutcome = SaveOutcome(primaryOk: bool, fallbackOk: bool, windowOpened: bool)

  /** What the user sees of an attempt. */
  datatype SaveEffect = Downloaded(fileName: string) | ShownInWindow(windowTitle: string) | NothingShown | Alerted

  const SaveFailedMessage: string := "儲存圖片失敗，請長按圖片手動儲存"

  /** The visible effect of a settled attempt: the download; else the image in a new window, if
      one opened; else the alert. */
  function SaveEffectOf(o: SaveOutcome, deityName: Option<string>, title: string): (e: SaveEffect)
    ensures e.Downloaded? <==> o.primaryOk
    ensures e.Downloaded? ==> e.fileName == FileName(deityName, title)
    ensures e.ShownInWindow? <==> !o.primaryOk && o.fallbackOk && o.windowOpened
    ensures e.ShownInWindow? ==> e.windowTitle == WindowTitle(deityName, title)
    ensures e == NothingShown <==> !o.primaryOk && o.fallbackOk && !o.windowOpened
    ensures e == Alerted <==> !o.primaryOk && !o.fallbackOk
  {
    if o.primaryOk then Downloaded(FileName(deityName, title))
    else if o.fallbackOk then (if o.windowOpened then ShownInWindow(WindowTitle(deityName, title)) else NothingShown)
    else Alerted
  }

  datatype SaveFlags = SaveFlags(isSaving: bool, isSaved: bool)

  /** The click, up to the first `await`: a no-op without the modal's element or while an
      attempt is running; otherwise `isSaving` is raised. */
  function AfterSaveClick(s: SaveFlags, hasRef: bool): (t: SaveFlags)
    ensures !hasRef || s.isSaving ==> t == s
    ensures hasRef && !s.isSaving ==> t.isSaving && t.isSaved == s.isSaved
  {
    if !hasRef || s.isSaving then s else s.(isSaving := true)
  }

  /** The attempt settles: `finally` lowers `isSaving` whatever happened, and `isSaved` is raised
      when either path got an image, and otherwise left as it was. */
  function AfterSaveSettled(s: SaveFlags, o: SaveOutcome): (t: SaveFlags)
    ensures !t.isSaving
    ensures t.isSaved == (s.isSaved || o.primaryOk || o.fallbackOk)
    ensures !o.primaryOk && !o.fallbackOk ==> t.isSaved == s.isSaved
  {
    SaveFlags(false, s.isSaved || o.primaryOk || o.fallbackOk)
  }

  /** `handleClose`, as far as the flags go. */
  function AfterClose(s: SaveFlags): (t: SaveFlags)
    ensures !t.isSaved && t.isSaving == s.isSaving
  {
    s.(isSaved := false)
  }

  /** The footer offers the save button until an attempt succeeds; the button is disabled while
      one runs. */
  predicate SaveButtonShown(s: SaveFlags) {
    !s.isSaved
  }

  /** A click then its settling leaves nothing running, and the button is gone exactly when an
      image was produced (or was already saved before). */
  lemma SaveRoundTrip(s: SaveFlags, o: SaveOutcome)
    requires !s.isSaving
    ensures var t := AfterSaveSettled(AfterSaveClick(s, true), o);
      && !t.isSaving
      && (SaveButtonShown(t) <==> SaveButtonShown(s) && !o.primaryOk && !o.fallbackOk)
  {
  }

  /** A second click while the first attempt runs changes nothing, so one attempt runs at a time. */
  lemma NoSecondAttempt(s: SaveFlags, hasRef: bool, hasRef2: bool)
    requires hasRef && !s.isSaving
    ensures AfterSaveClick(AfterSaveClick(s, hasRef), hasRef2) == AfterSaveClick(s, hasRef)
  {
  }

  /** The component's two flags. */
  class SaveButton {
    var isSaving: bool
    var isSaved: bool

    function Flags(): SaveFlags
      reads this
    {
      SaveFlags(isSaving, isSaved)
    }

    constructor ()
      ensures Flags() == SaveFlags(false, false)
    {
      isSaving := false;
      isSaved := false;
    }

    /** `handleSaveImage` up to its first `await`; `started` tells whether an attempt began. */
    method HandleSaveImage(hasRef: bool) returns (started: bool)
      modifies this
      ensures Flags() == AfterSaveClick(old(Flags()), hasRef)
      ensures started <==> hasRef && !old(isSaving)
      ensures started ==> isSaving
    {
      if !hasRef || isSaving {
        return false;
      }
      isSaving := true;
      started := true;
    }

    /** The rest of `handleSaveImage` once the library calls have settled. An attempt is running
        exactly while `isSaving` is set, since nothing else sets it. */
    method SaveSettled(o: SaveOutcome, deityName: Option<string>, title: string) returns (e: SaveEffect)
      requires isSaving
      modifies this
      ensures Flags() == AfterSaveSettled(old(Flags()), o)
      ensures e == SaveEffectOf(o, deityName, title)
    {
      if o.primaryOk {
        e := Downloaded(FileName(deityName, title));
        isSaved := true;
      } else if o.fallbackOk {
        if o.windowOpened {
          e := ShownInWindow(WindowTitle(deityName, title));
        } else {
          e := NothingShown;
        }
        isSaved := true;
      } else {
        e := Alerted;
      }
      isSaving := false;
    }

    /** `handleClose`: `isSaved` is lowered first, then the parent's `onClose`
        (`handleCloseModal`) runs. */
    method HandleClose(app: App.Session)
      modifies this, app
      ensures Flags() == AfterClose(old(Flags()))
      ensures app.State() == App.AfterCloseModal(old(app.State()))
    {
      isSaved := false;
      app.HandleCloseModal();
    }
  }
}
