/**
 The settings record of the second prototype (`SettingsManager` in settings.py):
 the defaults, the "Save Playback Count" handler and the always-on-top toggle.
 The window that shows them is not modelled; the entry's text is an input.
 */
module Settings {
  import opened Common
  import PyInt

  datatype Settings = Settings(
    alwaysOnTop: bool,
    playbackCount: int,      // 0 means "repeat until stopped"
    recordHotkey: string,
    playbackHotkey: string)

  /** The settings a fresh `SettingsManager` holds. */
  function Defaults(): (s: Settings)
    ensures !s.alwaysOnTop
    ensures s.playbackCount == 1
    ensures s.recordHotkey == "F10" && s.playbackHotkey == "F6"
  {
    Settings(false, 1, "F10", "F6")
  }

  /** `save_count`: the entry text read by `int()`, or 1 when that raises.
      The previous count is never kept, and nothing else changes. */
  function SaveCount(s: Settings, text: string): (r: Settings)
    ensures PyInt.ParseInt(text).Some? ==> r.playbackCount == PyInt.ParseInt(text).value
    ensures PyInt.ParseInt(text).None? ==> r.playbackCount == 1
    ensures r.alwaysOnTop == s.alwaysOnTop
    ensures r.recordHotkey == s.recordHotkey && r.playbackHotkey == s.playbackHotkey
  {
    match PyInt.ParseInt(text)
    case Some(n) => s.(playbackCount := n)
    case None => s.(playbackCount := 1)
  }

  /** `toggle_always_on_top`: flips the flag and nothing else. */
  function ToggleAlwaysOnTop(s: Settings): (r: Settings)
    ensures r.alwaysOnTop != s.alwaysOnTop
    ensures r.playbackCount == s.playbackCount
    ensures r.recordHotkey == s.recordHotkey && r.playbackHotkey == s.playbackHotkey
  {
    s.(alwaysOnTop := !s.alwaysOnTop)
  }

  /** Saving the decimal text of any integer within the digit limit stores
      exactly that integer, 0 ("repeat until stopped") and negative counts
      included; longer text resets the count to 1. */
  lemma SaveShownCount(s: Settings, n: int)
    ensures SaveCount(s, PyInt.Show(n)).playbackCount ==
      if PyInt.ShownDigits(n) <= PyInt.MaxStrDigits then n else 1
  {
    PyInt.ParseShow(n);
  }

  /** Saving text that is not an integer resets the count to 1, whatever it was. */
  lemma SaveNonNumber(s: Settings, text: string)
    requires forall i :: 0 <= i < |text| ==> !PyInt.IsDigit(text[i])
    ensures SaveCount(s, text) == s.(playbackCount := 1)
  {
    PyInt.NoDigitIsRejected(text);
  }

  /** Two toggles restore the settings. */
  lemma ToggleTwice(s: Settings)
    ensures ToggleAlwaysOnTop(ToggleAlwaysOnTop(s)) == s
  {
  }

  /** Saving the count already shown in the entry (as the window prefills it with
      `str(playback_count)`) leaves the settings unchanged. */
  lemma SaveUnchangedCount(s: Settings)
    ensures PyInt.ShownDigits(s.playbackCount) <= PyInt.MaxStrDigits ==> SaveCount(s, PyInt.Show(s.playbackCount)) == s
    ensures PyInt.ShownDigits(s.playbackCount) > PyInt.MaxStrDigits ==>
      SaveCount(s, PyInt.Show(s.playbackCount)) == s.(playbackCount := 1)
  {
    PyInt.ParseShow(s.playbackCount);
  }
}
