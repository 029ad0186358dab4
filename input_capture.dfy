/** The application-wide input capture installed at startup (start.go, `SetInputCapture`):
    decides, for each key event, whether it passes through to the focused widget, cycles the
    panels, or runs a global keybinding and is consumed. The page stack and the key-descriptor
    lookup are given as values. */
module InputCapture {
  import opened Wrappers
  import opened Strings
  import opened Keybinds

  datatype Key = Tab | OtherKey

  /** A key event: its key code and the descriptor the global keybind table is looked up by. */
  datatype KeyEvent = KeyEvent(key: Key, descriptor: string)

  /** The pages of the UI: the names of the pages present and the name of the front page
      (`""` when there is none). */
  datatype Pages = Pages(names: set<string>, front: string)

  /** What the capture does with one event: whether it cycles the panels, which global
      callback it runs, and the event it returns (`None` is Go's nil: the event is consumed). */
  datatype Capture = Capture(cyclePanels: bool, run: Option<Callback>, returned: Option<KeyEvent>)

  const ReplPopup := "repl-input-popup"
  const TagEditorPopup := "tag-editor-input-popup"

  /** Text is being typed: the REPL or the tag editor is open, or the front page is an input. */
  predicate Typing(pages: Pages) {
    ReplPopup in pages.names || TagEditorPopup in pages.names || Contains(pages.front, "-input-")
  }

  /** The capture decision for event `e` with global keybind table `global`. */
  function Decide(pages: Pages, e: KeyEvent, global: map<string, Callback>): (c: Capture)
    // while typing, the key goes to the input field untouched
    ensures Typing(pages) ==> c == Capture(false, None, Some(e))
    // Tab on a confirmation popup goes to the popup untouched
    ensures !Typing(pages) && e.key == Tab && Contains(pages.front, "confirmation-") ==> c == Capture(false, None, Some(e))
    ensures c.cyclePanels <==> !Typing(pages) && e.key == Tab && !Contains(pages.front, "confirmation-")
    // a global binding runs exactly when the key reaches the lookup and is bound
    ensures c.run.Some? <==> !Typing(pages) && !(e.key == Tab && Contains(pages.front, "confirmation-")) && e.descriptor in global
    ensures c.run.Some? ==> c.run.value == global[e.descriptor]
    // the event is consumed exactly when a binding ran, and otherwise returned unchanged
    ensures c.returned.None? <==> c.run.Some?
    ensures c.returned.Some? ==> c.returned.value == e
  {
    if ReplPopup in pages.names then Capture(false, None, Some(e))
    else if TagEditorPopup in pages.names then Capture(false, None, Some(e))
    else if Contains(pages.front, "-input-") then Capture(false, None, Some(e))
    else if e.key == Tab && Contains(pages.front, "confirmation-") then Capture(false, None, Some(e))
    else
      var cycled := e.key == Tab;
      if e.descriptor in global then Capture(cycled, Some(global[e.descriptor]), None)
      else Capture(cycled, None, Some(e))
  }

  /** The two named popups are input pages too: with either of them in front, the front-page
      test alone already passes the key through. */
  lemma NamedPopupsAreInputs()
    ensures Contains(ReplPopup, "-input-")
    ensures Contains(TagEditorPopup, "-input-")
  {
    ContainsAt(ReplPopup, "-input-", 4);
    ContainsAt(TagEditorPopup, "-input-", 10);
  }

  /** Tab on the main page with a global binding for it both cycles the panels and runs the
      binding: the panel switch does not bypass the keybind lookup. */
  lemma TabFallsThroughToKeybind(global: map<string, Callback>, d: string)
    requires d in global
    ensures Decide(Pages({"main"}, "main"), KeyEvent(Tab, d), global) == Capture(true, Some(global[d]), None)
  {
    assert !Contains("main", "-input-");
    assert !Contains("main", "confirmation-");
  }
}
