/**
 * Which display hosts the taskbar: the eligibility test for a single display
 * and the last-eligible-wins scan over the display manager's list.
 */
module Displays {

  /** android.view.Display.DEFAULT_DISPLAY */
  const DEFAULT_DISPLAY: int := 0
  /** android.view.Display.FLAG_SECURE (1 << 1) */
  const FLAG_SECURE: bv32 := 0x2
  /** android.view.Display.FLAG_PRIVATE (1 << 2) */
  const FLAG_PRIVATE: bv32 := 0x4

  /**
   * A snapshot of one android.view.Display as the display manager hands it out;
   * `present` is false where the display manager answers null.
   */
  datatype Display = Display(present: bool, valid: bool, id: int, flags: bv32)

  /** What DisplayManager.getDisplay answers for an id it does not know. */
  function NoDisplay(id: int): Display {
    Display(false, false, id, 0)
  }

  /**
   * A display may host the taskbar when it exists, is valid, is not the
   * built-in default display, is public and is secure. The body keeps the
   * source's chain of early returns; the Java test `(flags & FLAG_PRIVATE) > 0`
   * is a test for a non-zero bit, because FLAG_PRIVATE is not the sign bit.
   */
  function IsDesktopScreen(d: Display): (eligible: bool)
    ensures eligible <==>
      d.present && d.valid && d.id != DEFAULT_DISPLAY &&
      (d.flags & FLAG_PRIVATE) == 0 && (d.flags & FLAG_SECURE) != 0
    ensures eligible ==> d.id != DEFAULT_DISPLAY
  {
    if !d.present then false
    else if !d.valid then false
    else if d.id == DEFAULT_DISPLAY then false
    else if (d.flags & FLAG_PRIVATE) != 0 then false
    else if (d.flags & FLAG_SECURE) == 0 then false
    else true
  }

  /**
   * DisplayManager.getDisplay(id) over the display manager's list: the first
   * present display carrying that id, or no display at all.
   */
  function LookupDisplay(displays: seq<Display>, id: int): (d: Display)
    ensures d.present ==> d in displays && d.id == id
    ensures !d.present <==> forall k :: 0 <= k < |displays| ==> !(displays[k].present && displays[k].id == id)
    ensures !d.present ==> !IsDesktopScreen(d)
  {
    if displays == [] then NoDisplay(id)
    else if displays[0].present && displays[0].id == id then displays[0]
    else LookupDisplay(displays[1..], id)
  }

  /** No display of the list may host the taskbar. */
  ghost predicate NoneEligible(displays: seq<Display>) {
    forall k :: 0 <= k < |displays| ==> !IsDesktopScreen(displays[k])
  }

  /** Index k holds an eligible display and no later entry is eligible. */
  ghost predicate LastEligibleAt(displays: seq<Display>, k: int) {
    && 0 <= k < |displays|
    && IsDesktopScreen(displays[k])
    && forall j :: k < j < |displays| ==> !IsDesktopScreen(displays[j])
  }

  /** Reference definition of the scan: the id of the last eligible display, else the default display. */
  ghost function LastEligibleId(displays: seq<Display>): int
    decreases |displays|
  {
    if displays == [] then DEFAULT_DISPLAY
    else if IsDesktopScreen(displays[|displays| - 1]) then displays[|displays| - 1].id
    else LastEligibleId(displays[..|displays| - 1])
  }

  /** Reference definition of findScreen under the "prefer a secondary display" policy. */
  ghost function SelectDisplay(displays: seq<Display>, preferSecondary: bool): int {
    if preferSecondary then LastEligibleId(displays) else DEFAULT_DISPLAY
  }

  /** The scan yields the default display exactly when no entry is eligible. */
  lemma {:induction false} LastEligibleIdDefaultIff(displays: seq<Display>)
    ensures LastEligibleId(displays) == DEFAULT_DISPLAY <==> NoneEligible(displays)
    decreases |displays|
  {
    if displays != [] {
      var init := displays[..|displays| - 1];
      LastEligibleIdDefaultIff(init);
      assert forall k :: 0 <= k < |init| ==> init[k] == displays[k];
    }
  }

  /** The scan yields the id of the last eligible entry. */
  lemma {:induction false} LastEligibleIdIsLast(displays: seq<Display>, k: int)
    requires LastEligibleAt(displays, k)
    ensures LastEligibleId(displays) == displays[k].id
    decreases |displays|
  {
    if k < |displays| - 1 {
      var init := displays[..|displays| - 1];
      assert forall j :: 0 <= j < |init| ==> init[j] == displays[j];
      LastEligibleIdIsLast(init, k);
    }
  }

  /** Any eligible entry means some entry is the last eligible one. */
  lemma {:induction false} LastEligibleExists(displays: seq<Display>, i: int)
    requires 0 <= i < |displays| && IsDesktopScreen(displays[i])
    ensures exists k :: LastEligibleAt(displays, k)
    decreases |displays| - i
  {
    if !LastEligibleAt(displays, i) {
      var j :| i < j < |displays| && IsDesktopScreen(displays[j]);
      LastEligibleExists(displays, j);
    }
  }

  /** findScreen answers the default display iff the policy is off or nothing is eligible. */
  lemma SelectDisplayDefaultIff(displays: seq<Display>, preferSecondary: bool)
    ensures SelectDisplay(displays, preferSecondary) == DEFAULT_DISPLAY <==>
      (!preferSecondary || NoneEligible(displays))
  {
    LastEligibleIdDefaultIff(displays);
  }

  /** With the policy on and some eligible display, findScreen answers the last eligible one. */
  lemma SelectDisplayLastWins(displays: seq<Display>, i: int)
    requires 0 <= i < |displays| && IsDesktopScreen(displays[i])
    ensures exists k :: LastEligibleAt(displays, k) && SelectDisplay(displays, true) == displays[k].id
  {
    LastEligibleExists(displays, i);
    var k :| LastEligibleAt(displays, k);
    LastEligibleIdIsLast(displays, k);
  }
}
