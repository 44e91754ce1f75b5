/**
 * The editor-tab store of `src/store/navigation.ts`: the open tabs, the
 * active tab id and the side-bar view. Each action is a function of the
 * state; the store class applies it to its fields.
 */
module Navigation {
  import opened Wrappers
  import opened Seqs

  datatype View = Files | Search

  datatype Tab = Tab(id: string, title: string, path: string, icon: string, closable: bool)

  /** The argument of `openTab`: a tab whose `closable` may be left out. */
  datatype TabRequest = TabRequest(id: string, title: string, path: string, icon: string, closable: Option<bool>)

  datatype Nav = Nav(activeView: View, tabs: seq<Tab>, activeTabId: string)

  function Initial(): Nav {
    Nav(Files, [], "")
  }

  /** The index of the first tab with id `id`, or -1 (`findIndex`). */
  function IndexOfTab(tabs: seq<Tab>, id: string): (i: int)
    ensures -1 <= i < |tabs|
    ensures i >= 0 ==> tabs[i].id == id
    ensures forall j | 0 <= j < |tabs| && (i < 0 || j < i) :: tabs[j].id != id
  {
    FirstIndex(tabs, (t: Tab) => t.id == id)
  }

  /** Some tab has id `id`. */
  predicate HasTab(tabs: seq<Tab>, id: string) {
    exists t | t in tabs :: t.id == id
  }

  predicate UniqueIds(tabs: seq<Tab>) {
    DistinctBy(tabs, (t: Tab) => t.id)
  }

  // ---------------------------------------------------------------------
  // The actions
  // ---------------------------------------------------------------------

  function WithView(s: Nav, view: View): Nav {
    s.(activeView := view)
  }

  /** `openTab`: a tab with a new id is appended (closable unless said otherwise); the id becomes active. */
  function Open(s: Nav, req: TabRequest): Nav {
    var tabs :=
      if IndexOfTab(s.tabs, req.id) < 0 then s.tabs + [Tab(req.id, req.title, req.path, req.icon, req.closable.GetOr(true))]
      else s.tabs;
    s.(tabs := tabs, activeTabId := req.id)
  }

  /**
   * `closeTab`: the first tab with that id is spliced out; when it was the
   * active one, the tab now at `max(0, index - 1)` becomes active, or none.
   */
  function Close(s: Nav, id: string): Nav {
    var i := IndexOfTab(s.tabs, id);
    if i < 0 then s
    else
      var tabs := s.tabs[..i] + s.tabs[i + 1..];
      var active :=
        if s.activeTabId != id then s.activeTabId
        else if |tabs| > 0 then tabs[if i - 1 > 0 then i - 1 else 0].id
        else "";
      Nav(s.activeView, tabs, active)
  }

  /** `setActiveTab`: no check that such a tab is open. */
  function Activate(s: Nav, id: string): Nav {
    s.(activeTabId := id)
  }

  /** `closeOtherTabs`: only tabs with that id stay, and the id becomes active even when none does. */
  function CloseOthers(s: Nav, id: string): Nav {
    s.(tabs := Filter(s.tabs, (t: Tab) => t.id == id), activeTabId := id)
  }

  function CloseAll(s: Nav): Nav {
    s.(tabs := [], activeTabId := "")
  }

  // ---------------------------------------------------------------------
  // What the actions promise
  // ---------------------------------------------------------------------

  /** After `openTab` exactly the old tabs are open, plus the requested one when its id was new; it is active. */
  lemma OpenTabOpens(s: Nav, req: TabRequest)
    ensures Open(s, req).activeTabId == req.id && HasTab(Open(s, req).tabs, req.id)
    ensures HasTab(s.tabs, req.id) ==> Open(s, req).tabs == s.tabs
    ensures !HasTab(s.tabs, req.id) ==>
      Open(s, req).tabs == s.tabs + [Tab(req.id, req.title, req.path, req.icon, req.closable != Some(false))]
  {
    var r := Open(s, req);
    var i := IndexOfTab(s.tabs, req.id);
    if i >= 0 {
      assert s.tabs[i] in s.tabs;
    } else {
      assert r.tabs[|r.tabs| - 1] in r.tabs;
    }
  }

  /** Opening the same tab twice is the same as opening it once. */
  lemma OpenTabIdempotent(s: Nav, req: TabRequest)
    ensures Open(Open(s, req), req) == Open(s, req)
  {
    OpenTabOpens(s, req);
    OpenTabOpens(Open(s, req), req);
  }

  lemma OpenTabKeepsIdsUnique(s: Nav, req: TabRequest)
    requires UniqueIds(s.tabs)
    ensures UniqueIds(Open(s, req).tabs)
  {
    var r := Open(s, req).tabs;
    if IndexOfTab(s.tabs, req.id) < 0 {
      forall a, b | 0 <= a < b < |r| ensures r[a].id != r[b].id {
        if b == |r| - 1 {
          assert r[a] == s.tabs[a];
        }
      }
    }
  }

  /** Closing an id that no tab has changes nothing. */
  lemma CloseUnknownTab(s: Nav, id: string)
    requires !HasTab(s.tabs, id)
    ensures Close(s, id) == s
  {
  }

  function OtherTab(id: string): Tab -> bool {
    (t: Tab) => t.id != id
  }

  /** With unique ids, `closeTab` removes exactly the tab with that id and keeps the others in order. */
  lemma CloseTabRemovesExactly(s: Nav, id: string)
    requires UniqueIds(s.tabs)
    ensures Close(s, id).tabs == Filter(s.tabs, OtherTab(id))
    ensures UniqueIds(Close(s, id).tabs)
  {
    var i := IndexOfTab(s.tabs, id);
    if i < 0 {
      FilterAll(s.tabs, OtherTab(id));
    } else {
      forall j | 0 <= j < |s.tabs| && j != i ensures OtherTab(id)(s.tabs[j]) {
        if j > i {
          assert s.tabs[i].id != s.tabs[j].id;
        }
      }
      FilterDropsOne(s.tabs, i, OtherTab(id));
    }
    FilterDistinct(s.tabs, OtherTab(id), (t: Tab) => t.id);
  }

  /**
   * Closing the active tab activates its left neighbour, or the new first
   * tab when it was first, or nothing when no tab is left; closing another
   * tab keeps the active id.
   */
  lemma CloseTabActive(s: Nav, id: string)
    requires HasTab(s.tabs, id)
    ensures var r := Close(s, id);
      var i := IndexOfTab(s.tabs, id);
      r.activeTabId ==
        if s.activeTabId != id then s.activeTabId
        else if i > 0 then s.tabs[i - 1].id
        else if |s.tabs| > 1 then s.tabs[1].id
        else ""
  {
    var i := IndexOfTab(s.tabs, id);
    var t :| t in s.tabs && t.id == id;
  }

  /**
   * Unless some tab is open, nothing needs to be active; otherwise the
   * active id names an open tab.
   */
  predicate ActiveShown(s: Nav) {
    s.tabs != [] ==> HasTab(s.tabs, s.activeTabId)
  }

  lemma InitialActiveShown()
    ensures ActiveShown(Initial())
  {
  }

  lemma OpenTabKeepsActiveShown(s: Nav, req: TabRequest)
    ensures ActiveShown(Open(s, req))
  {
    OpenTabOpens(s, req);
  }

  lemma CloseTabKeepsActiveShown(s: Nav, id: string)
    requires ActiveShown(s)
    ensures ActiveShown(Close(s, id))
  {
    var r := Close(s, id);
    var i := IndexOfTab(s.tabs, id);
    if i >= 0 && r.tabs != [] {
      if s.activeTabId == id {
        var k := if i - 1 > 0 then i - 1 else 0;
        assert r.tabs[k] in r.tabs;
      } else {
        var t :| t in s.tabs && t.id == s.activeTabId;
        var j :| 0 <= j < |s.tabs| && s.tabs[j] == t;
        assert j != i;
        if j < i {
          assert r.tabs[j] == t;
        } else {
          assert r.tabs[j - 1] == t;
        }
      }
    }
  }

  lemma CloseOtherTabsKeepsActiveShown(s: Nav, id: string)
    ensures ActiveShown(CloseOthers(s, id))
  {
    var r := CloseOthers(s, id);
    if r.tabs != [] {
      assert r.tabs[0] in r.tabs;
    }
  }

  /** `closeOtherTabs` leaves only tabs with that id (with unique ids, one at most) and activates the id. */
  lemma CloseOtherTabsKeepsOnly(s: Nav, id: string)
    requires UniqueIds(s.tabs)
    ensures forall t | t in CloseOthers(s, id).tabs :: t.id == id
    ensures |CloseOthers(s, id).tabs| <= 1 && CloseOthers(s, id).activeTabId == id
  {
    var r := CloseOthers(s, id).tabs;
    FilterDistinct(s.tabs, (t: Tab) => t.id == id, (t: Tab) => t.id);
    if |r| > 1 {
      assert r[0] in r && r[1] in r;
    }
  }

  /** `setActiveTab` does not keep `ActiveShown`: the active tab need not be open. */
  lemma SetActiveTabMayHideActive()
    ensures var s := Nav(Files, [Tab("a", "a", "a", "", true)], "a");
      ActiveShown(s) && !ActiveShown(Activate(s, "b"))
  {
    var s := Nav(Files, [Tab("a", "a", "a", "", true)], "a");
    assert s.tabs[0] in s.tabs;
    var r := Activate(s, "b");
    assert forall t | t in r.tabs :: t == s.tabs[0];
  }

  // ---------------------------------------------------------------------
  // The store
  // ---------------------------------------------------------------------

  /** The Pinia store `navigation`. */
  class NavStore {
    var activeView: View
    var tabs: seq<Tab>
    var activeTabId: string

    function State(): Nav
      reads this
    {
      Nav(activeView, tabs, activeTabId)
    }

    constructor ()
      ensures State() == Initial()
    {
      activeView, tabs, activeTabId := Files, [], "";
    }

    method SetActiveView(view: View)
      modifies this
      ensures State() == WithView(old(State()), view)
    {
      activeView := view;
    }

    method OpenTab(req: TabRequest)
      modifies this
      ensures State() == Open(old(State()), req)
    {
      var existing := IndexOfTab(tabs, req.id);
      if existing < 0 {
        var closable := if req.closable.Some? then req.closable.value else true;
        tabs := tabs + [Tab(req.id, req.title, req.path, req.icon, closable)];
      }
      activeTabId := req.id;
    }

    method CloseTab(tabId: string)
      modifies this
      ensures State() == Close(old(State()), tabId)
    {
      var index := IndexOfTab(tabs, tabId);
      if index == -1 {
        return;
      }
      tabs := tabs[..index] + tabs[index + 1..];
      if activeTabId == tabId {
        if |tabs| > 0 {
          var k := if index - 1 > 0 then index - 1 else 0;
          activeTabId := tabs[k].id;
        } else {
          activeTabId := "";
        }
      }
    }

    method SetActiveTab(tabId: string)
      modifies this
      ensures State() == Activate(old(State()), tabId)
    {
      activeTabId := tabId;
    }

    method CloseOtherTabs(tabId: string)
      modifies this
      ensures State() == CloseOthers(old(State()), tabId)
    {
      tabs := Filter(tabs, (t: Tab) => t.id == tabId);
      activeTabId := tabId;
    }

    method CloseAllTabs()
      modifies this
      ensures State() == CloseAll(old(State()))
    {
      tabs := [];
      activeTabId := "";
    }
  }
}
