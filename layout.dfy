/**
 * The layout store of `src/store/layout.ts`: side-bar width and
 * visibility, panel height and visibility, and the editor split. Widths
 * and heights are modelled as integers.
 */
module Layout {

  datatype EditorLayout = Single | Horizontal | Vertical

  datatype LayoutState = LayoutState(
    sidebarWidth: int, sidebarVisible: bool,
    panelHeight: int, panelVisible: bool,
    editorLayout: EditorLayout)

  const MinSidebarWidth: int := 200
  const MaxSidebarWidth: int := 600
  const MinPanelHeight: int := 100
  const MaxPanelHeight: int := 500

  function Initial(): LayoutState {
    LayoutState(300, true, 200, false, Single)
  }

  /** `Math.max(lo, Math.min(hi, x))`. */
  function Clamp(x: int, lo: int, hi: int): (r: int)
    requires lo <= hi
    ensures lo <= r <= hi
    ensures lo <= x <= hi ==> r == x
    ensures x < lo ==> r == lo
    ensures x > hi ==> r == hi
  {
    if x < lo then lo else if x > hi then hi else x
  }

  /** The two clamps of the store keep their fields in range. */
  predicate InRange(s: LayoutState) {
    MinSidebarWidth <= s.sidebarWidth <= MaxSidebarWidth &&
    MinPanelHeight <= s.panelHeight <= MaxPanelHeight
  }

  function SidebarResized(s: LayoutState, width: int): LayoutState {
    s.(sidebarWidth := Clamp(width, MinSidebarWidth, MaxSidebarWidth))
  }

  function SidebarToggled(s: LayoutState): LayoutState {
    s.(sidebarVisible := !s.sidebarVisible)
  }

  function PanelResized(s: LayoutState, height: int): LayoutState {
    s.(panelHeight := Clamp(height, MinPanelHeight, MaxPanelHeight))
  }

  function PanelToggled(s: LayoutState): LayoutState {
    s.(panelVisible := !s.panelVisible)
  }

  function LayoutChosen(s: LayoutState, layout: EditorLayout): LayoutState {
    s.(editorLayout := layout)
  }

  /** The initial state is in range, and every action keeps it so. */
  lemma ActionsKeepInRange(s: LayoutState, width: int, height: int, layout: EditorLayout)
    requires InRange(s)
    ensures InRange(Initial())
    ensures InRange(SidebarResized(s, width)) && InRange(PanelResized(s, height))
    ensures InRange(SidebarToggled(s)) && InRange(PanelToggled(s)) && InRange(LayoutChosen(s, layout))
  {
  }

  /** Setting a size twice is setting it once, and setting the size it already has changes nothing. */
  lemma SettersIdempotent(s: LayoutState, width: int, height: int)
    ensures SidebarResized(SidebarResized(s, width), width) == SidebarResized(s, width)
    ensures PanelResized(PanelResized(s, height), height) == PanelResized(s, height)
    ensures InRange(s) ==> SidebarResized(s, s.sidebarWidth) == s && PanelResized(s, s.panelHeight) == s
  {
  }

  /** Toggling twice restores the flag; a toggle changes nothing but its own flag. */
  lemma TogglesAreInvolutions(s: LayoutState)
    ensures SidebarToggled(SidebarToggled(s)) == s && PanelToggled(PanelToggled(s)) == s
    ensures SidebarToggled(s).sidebarVisible != s.sidebarVisible
    ensures PanelToggled(s).panelVisible != s.panelVisible
  {
  }

  /** The Pinia store `layout`. */
  class LayoutStore {
    var sidebarWidth: int
    var sidebarVisible: bool
    var panelHeight: int
    var panelVisible: bool
    var editorLayout: EditorLayout

    function State(): LayoutState
      reads this
    {
      LayoutState(sidebarWidth, sidebarVisible, panelHeight, panelVisible, editorLayout)
    }

    constructor ()
      ensures State() == Initial() && InRange(State())
    {
      sidebarWidth, sidebarVisible := 300, true;
      panelHeight, panelVisible := 200, false;
      editorLayout := Single;
    }

    method SetSidebarWidth(width: int)
      modifies this
      ensures State() == SidebarResized(old(State()), width)
    {
      sidebarWidth := Clamp(width, MinSidebarWidth, MaxSidebarWidth);
    }

    method ToggleSidebar()
      modifies this
      ensures State() == SidebarToggled(old(State()))
    {
      sidebarVisible := !sidebarVisible;
    }

    method SetPanelHeight(height: int)
      modifies this
      ensures State() == PanelResized(old(State()), height)
    {
      panelHeight := Clamp(height, MinPanelHeight, MaxPanelHeight);
    }

    method TogglePanel()
      modifies this
      ensures State() == PanelToggled(old(State()))
    {
      panelVisible := !panelVisible;
    }

    method SetEditorLayout(layout: EditorLayout)
      modifies this
      ensures State() == LayoutChosen(old(State()), layout)
    {
      editorLayout := layout;
    }
  }
}
