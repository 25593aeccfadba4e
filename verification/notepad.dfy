/**
 The notepad's editor session: the text of the text area, the dark-mode flag, the text
 area's background, foreground and caret colours, its font, and the error dialogs shown.

 `Step` is the effect of one menu command on a snapshot of that state; the class
 `AdvancedNotepad` holds the same state in fields that its methods update in place, each
 method promising the new state `Step` gives. The regex engine behind `String.replaceAll`
 is not modelled: Replace All takes it as a function parameter, which answers `None` where
 `replaceAll` would throw.
 */
module Notepad {
  import opened Optional
  import opened WordCounter
  import opened FontMenu

  /** An AWT colour by its red, green and blue components (all alpha 255 here). */
  datatype Color = Color(red: int, green: int, blue: int)

  const WHITE: Color := Color(255, 255, 255)
  const BLACK: Color := Color(0, 0, 0)
  const DARK_GRAY: Color := Color(64, 64, 64)

  /** An AWT font: family name, style bits and point size. */
  datatype Font = Font(name: string, style: int, size: int)

  const PLAIN: int := 0

  /** The font a Font Size item installs. */
  function MenuFont(size: int): Font {
    Font("Arial", PLAIN, size)
  }

  /** How the text area looks, apart from its text. */
  datatype Appearance = Appearance(
    isDarkMode: bool,
    background: Color,
    foreground: Color,
    caret: Color,
    font: Font)

  /** The background Toggle Dark Mode installs for a value of the flag. */
  function ThemeBackground(dark: bool): Color {
    if dark then DARK_GRAY else WHITE
  }

  /** The foreground (and caret colour) Toggle Dark Mode installs for a value of the flag. */
  function ThemeForeground(dark: bool): Color {
    if dark then WHITE else BLACK
  }

  /** The colours are the ones the flag calls for, and the caret has the text's colour. */
  predicate Themed(a: Appearance) {
    && a.background == ThemeBackground(a.isDarkMode)
    && a.foreground == ThemeForeground(a.isDarkMode)
    && a.caret == a.foreground
  }

  /** Toggle Dark Mode: flip the flag, then derive all three colours from it. */
  function ToggleDarkMode(a: Appearance): (r: Appearance)
    ensures r.isDarkMode == !a.isDarkMode
    ensures Themed(r)
    ensures r.font == a.font
    ensures r.isDarkMode ==> r.background == DARK_GRAY && r.foreground == WHITE && r.caret == WHITE
    ensures !r.isDarkMode ==> r.background == WHITE && r.foreground == BLACK && r.caret == BLACK
  {
    var dark := !a.isDarkMode;
    var fg := ThemeForeground(dark);
    a.(isDarkMode := dark, background := ThemeBackground(dark), foreground := fg, caret := fg)
  }

  /** Toggling twice restores the flag, whatever the colours were. */
  lemma ToggleTwiceRestoresFlag(a: Appearance)
    ensures ToggleDarkMode(ToggleDarkMode(a)).isDarkMode == a.isDarkMode
    ensures ToggleDarkMode(ToggleDarkMode(a)).font == a.font
  {
  }

  /** Once the colours follow the flag (after any toggle), toggling twice restores them all. */
  lemma ToggleTwiceRestores(a: Appearance)
    requires Themed(a)
    ensures ToggleDarkMode(ToggleDarkMode(a)) == a
  {
  }

  /** What the file chooser and the reader report for Open. */
  datatype OpenOutcome =
    | OpenCancelled            // the chooser was not approved
    | OpenRead(content: string) // the chosen file was read completely
    | OpenFailed               // reading threw an IOException
    | OpenReadCloseFailed(content: string)
                               // the file was read, then closing the reader threw

  /** What the file chooser and the writer report for Save. */
  datatype SaveOutcome =
    | SaveCancelled
    | SaveWritten
    | SaveFailed

  const OPEN_ERROR: string := "Error opening file."
  const SAVE_ERROR: string := "Error saving file."

  /** `text.replaceAll(find, replacement)`, as the regex engine computes it: `None` when
      it throws (an invalid pattern, or a replacement with a trailing `\`, a bare `$` or a
      group reference the pattern lacks, once the pattern matches). */
  type Replacer = (string, string, string) -> Option<string>

  /** The menu and dialog commands the model covers. */
  datatype Command =
    | New
    | Open(openOutcome: OpenOutcome)
    | Save(saveOutcome: SaveOutcome)
    | ToggleDark
    | FontItem(actionCommand: string)
    | ReplaceAll(find: string, replacement: string, engine: Replacer)

  /** A snapshot of the editor session. */
  datatype Session = Session(text: string, look: Appearance, errors: seq<string>)

  /** The effect of one command on the session. Only New, Open and Replace All touch
      the text; only Toggle Dark Mode and the Font Size items touch the look; only a
      failed Open or Save adds an error, one at a time. */
  function Step(s: Session, c: Command): (r: Session)
    ensures r.text != s.text ==> c.New? || c.Open? || c.ReplaceAll?
    ensures r.look != s.look ==> c.ToggleDark? || c.FontItem?
    ensures r.errors == s.errors
         || (c.Open? && r.errors == s.errors + [OPEN_ERROR])
         || (c.Save? && r.errors == s.errors + [SAVE_ERROR])
  {
    match c
    case New => s.(text := [])
    case Open(o) =>
      (match o
       case OpenCancelled => s
       case OpenRead(content) => s.(text := content)
       case OpenFailed => s.(errors := s.errors + [OPEN_ERROR])
       case OpenReadCloseFailed(content) =>
         s.(text := content, errors := s.errors + [OPEN_ERROR]))
    case Save(o) =>
      if o.SaveFailed? then s.(errors := s.errors + [SAVE_ERROR]) else s
    case ToggleDark => s.(look := ToggleDarkMode(s.look))
    case FontItem(actionCommand) =>
      (match ParseInt(actionCommand)
       case Some(size) => s.(look := s.look.(font := MenuFont(size)))
       case None => s)
    case ReplaceAll(find, replacement, engine) =>
      if find == [] then
        s
      else
        (match engine(s.text, find, replacement)
         case Some(replaced) => s.(text := replaced)
         case None => s)
  }

  /** New empties the text, so the count drops to 0; nothing else changes. */
  lemma NewClearsText(s: Session)
    ensures Step(s, New).text == []
    ensures WordCount(Step(s, New).text) == 0
    ensures Step(s, New).look == s.look && Step(s, New).errors == s.errors
  {
    WordCountBlankExamples();
  }

  /** Open installs the file's text when it was read; a failed read shows exactly one
      error and leaves the text as it was; a read followed by a failed close of the
      reader (the try-with-resources block) does both. */
  lemma OpenEffect(s: Session, o: OpenOutcome)
    ensures Step(s, Open(o)).look == s.look
    ensures o.OpenRead? ==> Step(s, Open(o)) == s.(text := o.content)
    ensures o.OpenFailed? ==> Step(s, Open(o)).text == s.text
    ensures o.OpenFailed? ==> Step(s, Open(o)).errors == s.errors + [OPEN_ERROR]
    ensures o.OpenCancelled? ==> Step(s, Open(o)) == s
    ensures o.OpenReadCloseFailed? ==>
      Step(s, Open(o)) == s.(text := o.content, errors := s.errors + [OPEN_ERROR])
  {
  }

  /** Save never changes the text or the look; a failed write shows exactly one error. */
  lemma SaveEffect(s: Session, o: SaveOutcome)
    ensures Step(s, Save(o)).text == s.text && Step(s, Save(o)).look == s.look
    ensures Step(s, Save(o)).errors == if o.SaveFailed? then s.errors + [SAVE_ERROR] else s.errors
  {
  }

  /** Choosing a Font Size item installs Arial at exactly that size and changes nothing
      else; every label the menu builds parses back to its size. */
  lemma FontItemEffect(s: Session, i: int)
    requires 0 <= i < |FONT_SIZES|
    ensures Step(s, FontItem(ValueOf(FONT_SIZES[i]))) == s.(look := s.look.(font := MenuFont(FONT_SIZES[i])))
  {
    ParseValueOf(FONT_SIZES[i]);
  }

  /** A label that is no `int` makes `parseInt` throw inside the listener: nothing changes. */
  lemma FontItemMalformed(s: Session, actionCommand: string)
    requires ParseInt(actionCommand).None?
    ensures Step(s, FontItem(actionCommand)) == s
  {
  }

  /** Replace All with an empty find text does nothing; otherwise only the text changes,
      to what the regex engine returns, and nothing changes when the engine throws. */
  lemma ReplaceAllEffect(s: Session, find: string, replacement: string, engine: Replacer)
    ensures find == [] ==> Step(s, ReplaceAll(find, replacement, engine)) == s
    ensures find != [] && engine(s.text, find, replacement).Some? ==>
      Step(s, ReplaceAll(find, replacement, engine))
        == s.(text := engine(s.text, find, replacement).value)
    ensures engine(s.text, find, replacement).None? ==>
      Step(s, ReplaceAll(find, replacement, engine)) == s
  {
  }

  /** Once the colours follow the flag, every command keeps them so. */
  lemma StepKeepsThemed(s: Session, c: Command)
    requires Themed(s.look)
    ensures Themed(Step(s, c).look)
  {
  }

  /** The find-and-replace dialog; the Replace All button disposes it on success. */
  class FindReplaceDialog {
    var visible: bool

    constructor ()
      ensures visible
    {
      visible := true;
    }
  }

  /** The notepad window: the state its menu commands read and write. */
  class AdvancedNotepad {
    var text: string
    var isDarkMode: bool
    var background: Color
    var foreground: Color
    var caretColor: Color
    var font: Font
    var errors: seq<string>
    /** The labels of the Font Size menu. */
    const fontItems: seq<string>

    /** The session these fields hold. */
    function Snapshot(): Session
      reads this
    {
      Session(text, Appearance(isDarkMode, background, foreground, caretColor, font), errors)
    }

    /** A new window: empty text, light mode, the look-and-feel's colours and font (given,
        since they are not set by the notepad), and the Font Size menu built. */
    constructor (defaultBackground: Color, defaultForeground: Color, defaultCaret: Color, defaultFont: Font)
      ensures text == [] && !isDarkMode && errors == []
      ensures background == defaultBackground && foreground == defaultForeground
      ensures caretColor == defaultCaret && font == defaultFont
      ensures |fontItems| == |FONT_SIZES|
      ensures forall i :: 0 <= i < |fontItems| ==> fontItems[i] == ValueOf(FONT_SIZES[i])
      ensures forall i :: 0 <= i < |fontItems| ==> ParseInt(fontItems[i]) == Some(FONT_SIZES[i])
    {
      var items := BuildFontMenu();
      text := [];
      isDarkMode := false;
      background, foreground, caretColor := defaultBackground, defaultForeground, defaultCaret;
      font := defaultFont;
      errors := [];
      fontItems := items;
    }

    method New()
      modifies this
      ensures Snapshot() == Step(old(Snapshot()), Command.New)
    {
      text := [];
    }

    method Open(outcome: OpenOutcome)
      modifies this
      ensures Snapshot() == Step(old(Snapshot()), Command.Open(outcome))
    {
      match outcome {
        case OpenCancelled =>
        case OpenRead(content) =>
          text := content;
        case OpenFailed =>
          errors := errors + [OPEN_ERROR];
        case OpenReadCloseFailed(content) =>
          text := content;
          errors := errors + [OPEN_ERROR];
      }
    }

    method Save(outcome: SaveOutcome)
      modifies this
      ensures Snapshot() == Step(old(Snapshot()), Command.Save(outcome))
    {
      if outcome.SaveFailed? {
        errors := errors + [SAVE_ERROR];
      }
    }

    method ToggleDarkMode()
      modifies this
      ensures Snapshot() == Step(old(Snapshot()), ToggleDark)
      ensures Themed(Snapshot().look)
    {
      isDarkMode := !isDarkMode;
      var bg := if isDarkMode then DARK_GRAY else WHITE;
      var fg := if isDarkMode then WHITE else BLACK;
      background := bg;
      foreground := fg;
      caretColor := fg;
    }

    /** The listener of a Font Size item, given the item's label. */
    method ChooseFontSize(actionCommand: string)
      modifies this
      ensures Snapshot() == Step(old(Snapshot()), FontItem(actionCommand))
    {
      var parsed := ParseInt(actionCommand);
      if parsed.Some? {
        font := MenuFont(parsed.value);
      }
    }

    /** Find & Replace opens a new dialog and changes nothing else. */
    method ShowFindReplaceDialog() returns (dialog: FindReplaceDialog)
      ensures fresh(dialog) && dialog.visible
    {
      dialog := new FindReplaceDialog();
    }

    /** The dialog's Replace All button. */
    method ReplaceAllPressed(dialog: FindReplaceDialog, find: string, replacement: string, engine: Replacer)
      modifies this, dialog
      ensures Snapshot() == Step(old(Snapshot()), ReplaceAll(find, replacement, engine))
      ensures dialog.visible
           == (old(dialog.visible) && (find == [] || engine(old(text), find, replacement).None?))
    {
      if find != [] {
        var replaced := engine(text, find, replacement);
        if replaced.Some? {
          text := replaced.value;
          dialog.visible := false;
        }
      }
    }
  }

  /** A session on a fresh window: opening "hello world" replaces the text, a failed
      Open keeps it and shows one error, New leaves an empty text with a count of 0,
      and toggling dark mode twice brings back the light colours. */
  method NewAfterOpenScenario(defaultLook: Appearance)
  {
    var pad := new AdvancedNotepad(defaultLook.background, defaultLook.foreground,
                                   defaultLook.caret, defaultLook.font);
    pad.Open(OpenRead("hello world"));
    assert pad.text == "hello world";
    pad.Open(OpenFailed);
    assert pad.text == "hello world" && pad.errors == [OPEN_ERROR];
    pad.New();
    WordCountBlankExamples();
    assert pad.text == [] && WordCount(pad.text) == 0;
    pad.ToggleDarkMode();
    pad.ToggleDarkMode();
    assert !pad.isDarkMode && pad.background == WHITE && pad.caretColor == BLACK;
  }
}
