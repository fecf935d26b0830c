/** The ambient-sound selector of the Index page: `activeSoundIndex` holds one index or `null`. */
module Sound {
  import opened Wrappers

  /** `toggleSound(index)`: deselect the sound if it is the active one, otherwise select it alone. */
  function ToggleSound(active: Option<int>, index: int): (r: Option<int>)
    ensures r == None <==> active == Some(index)
    ensures r != None ==> r == Some(index)
  {
    if active == Some(index) then None else Some(index)
  }

  /** Selecting a sound while another one plays replaces it: at most one is ever active. */
  lemma SelectReplaces(j: int, index: int)
    requires j != index
    ensures ToggleSound(Some(j), index) == Some(index)
  {
  }

  /**
   * Two presses of the same sound: from the sound itself they come back to
   * it, from anything else they end with nothing selected.
   */
  lemma ToggleTwice(active: Option<int>, index: int)
    ensures ToggleSound(ToggleSound(active, index), index) ==
      if active == Some(index) then active else None
  {
  }

  lemma ToggleTwiceFromNone(index: int)
    ensures ToggleSound(ToggleSound(None, index), index) == None
  {
    ToggleTwice(None, index);
  }
}
