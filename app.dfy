/**
 * The top-level state of `App.tsx`: the active tab, the selected monument,
 * the page background and the sidebar flag, the handlers that change them,
 * and the dispatch from the active tab to the screen shown.
 */
module App {
  import opened Types
  import opened JsText
  import Constants

  /** The image service the background is fetched from, up to the query. */
  const BACKGROUND_PREFIX: string := "https://source.unsplash.com/1920x1080/?"

  /** The background address for a monument name: the fixed prefix, then a
      query made only of URI-safe characters, so the name cannot escape it. */
  function BackgroundFor(name: string): (url: string)
    ensures |url| >= |BACKGROUND_PREFIX| + |name| && url[..|BACKGROUND_PREFIX|] == BACKGROUND_PREFIX
    ensures forall i :: |BACKGROUND_PREFIX| <= i < |url| ==> IsUriSafe(url[i])
  {
    BACKGROUND_PREFIX + EncodeUriComponent(name)
  }

  /** The category a recognised monument outside the catalog is given. */
  const NEW_CATEGORY: string := "Historic"

  // ------------------------------------------------------- reconciliation

  /** The `find` test: equal names once both are lower-cased. */
  predicate NameMatches(m: Monument, name: string)
    ensures m.name == name ==> NameMatches(m, name)
    ensures NameMatches(m, name) ==> |m.name| == |name|
  {
    ToLower(m.name) == ToLower(name)
  }

  /** `catalog.find(...)`, as the index of the first matching entry. */
  function FindByName(catalog: seq<Monument>, name: string): (r: Option<nat>)
    ensures r.Some? ==> r.value < |catalog| && NameMatches(catalog[r.value], name)
    ensures r.Some? ==> forall j :: 0 <= j < r.value ==> !NameMatches(catalog[j], name)
    ensures r.None? <==> forall j :: 0 <= j < |catalog| ==> !NameMatches(catalog[j], name)
  {
    if catalog == [] then None
    else if NameMatches(catalog[0], name) then Some(0)
    else match FindByName(catalog[1..], name)
      case None => None
      case Some(k) => Some(k + 1)
  }

  /** No two entries of `catalog` have the same name once lower-cased. */
  predicate NamesDistinctIgnoringCase(catalog: seq<Monument>) {
    forall i, j :: 0 <= i < j < |catalog| ==> ToLower(catalog[i].name) != ToLower(catalog[j].name)
  }

  /** The monument the recognised name stands for: the first catalog entry
      with the same lower-cased name, or else a new entry that keeps the name
      verbatim, sits at (0, 0), is "Historic" and takes the clock reading
      `now` as its id. */
  function Reconcile(catalog: seq<Monument>, name: string, now: int): (m: Monument)
    ensures (exists i :: 0 <= i < |catalog| && NameMatches(catalog[i], name)) ==>
      m in catalog && NameMatches(m, name)
    ensures (forall i :: 0 <= i < |catalog| ==> !NameMatches(catalog[i], name)) ==>
      m == Monument(now, name, 0.0, 0.0, NEW_CATEGORY)
    ensures FindByName(catalog, name).Some? ==> m == catalog[FindByName(catalog, name).value]
  {
    match FindByName(catalog, name)
    case Some(i) => catalog[i]
    case None => Monument(now, name, 0.0, 0.0, NEW_CATEGORY)
  }

  /** In a catalog whose names differ ignoring case, a name in any casing
      selects its entry, unchanged. */
  lemma ReconcileFindsEntry(catalog: seq<Monument>, i: int, name: string, now: int)
    requires NamesDistinctIgnoringCase(catalog)
    requires 0 <= i < |catalog| && NameMatches(catalog[i], name)
    ensures Reconcile(catalog, name, now) == catalog[i]
  {
    var k := FindByName(catalog, name).value;
    assert k >= i;
  }

  /** The shipped catalog qualifies, so a recognised catalog name selects
      exactly that entry. */
  lemma ReconcileFindsCatalogEntry(i: int, name: string, now: int)
    requires 0 <= i < |Constants.MONUMENTS|
    requires NameMatches(Constants.MONUMENTS[i], name)
    ensures Reconcile(Constants.MONUMENTS, name, now) == Constants.MONUMENTS[i]
  {
    Constants.CatalogNamesDistinctIgnoringCase();
    ReconcileFindsEntry(Constants.MONUMENTS, i, name, now);
  }

  /** The "Unknown Monument" answer always yields a synthesised monument. */
  lemma ReconcileSentinel(now: int)
    ensures Reconcile(Constants.MONUMENTS, Constants.UNKNOWN_MONUMENT, now)
         == Monument(now, Constants.UNKNOWN_MONUMENT, 0.0, 0.0, NEW_CATEGORY)
  {
    Constants.SentinelNotInCatalog();
  }

  // ------------------------------------------------------------- dispatch

  /** The screens `renderContent` can show. */
  datatype Screen = Recognition | Information | RushHour | Nearby | Chatbot

  /** `renderContent`'s switch on the active tab. */
  function RenderContent(tab: string): (s: Screen)
    ensures s == Information <==> tab == "info"
    ensures s == RushHour <==> tab == "rush"
    ensures s == Nearby <==> tab == "nearby"
    ensures s == Chatbot <==> tab == "chat"
    ensures s == Recognition <==> tab !in {"info", "rush", "nearby", "chat"}
  {
    if tab == "recognize" then Recognition
    else if tab == "info" then Information
    else if tab == "rush" then RushHour
    else if tab == "nearby" then Nearby
    else if tab == "chat" then Chatbot
    else Recognition
  }

  /** The "ai-guide" tab has no case of its own and shows the recognition
      screen; no tab leads to the chatbot. */
  lemma TabsNeverReachChatbot()
    ensures RenderContent("ai-guide") == Recognition
    ensures forall i :: 0 <= i < |Constants.TABS| ==> RenderContent(Constants.TABS[i].id) != Chatbot
  {
    Constants.TabIds();
    forall i | 0 <= i < |Constants.TABS| ensures RenderContent(Constants.TABS[i].id) != Chatbot {
      assert Constants.TABS[i].id != "chat" by {
        assert Constants.IsTabId(Constants.TABS[i].id);
      }
    }
  }

  // ---------------------------------------------------------------- state

  /** The state `App` keeps. */
  class AppState {
    var activeTab: string
    var selectedMonument: Option<Monument>
    var dynamicBackground: Option<string>
    var isSidebarOpen: bool

    /** The active tab is always one the tab bar offers. */
    predicate Valid()
      reads this
    {
      Constants.IsTabId(activeTab)
    }

    /** The screen the active tab shows; never the chatbot. */
    function ShownScreen(): (s: Screen)
      requires Valid()
      reads this
      ensures s != Chatbot
    {
      TabsNeverReachChatbot();
      RenderContent(activeTab)
    }

    /** The first render: the recognition tab, the first catalog entry
        selected, no background and the sidebar closed. */
    constructor()
      ensures Valid()
      ensures activeTab == "recognize" && selectedMonument == Some(Constants.MONUMENTS[0])
      ensures dynamicBackground == None && !isSidebarOpen
    {
      activeTab := "recognize";
      selectedMonument := Some(Constants.MONUMENTS[0]);
      dynamicBackground := None;
      isSidebarOpen := false;
      Constants.TabIds();
    }

    /** `handleTabChange`: switch tab and close the sidebar, nothing else. */
    method HandleTabChange(tabId: string)
      requires Constants.IsTabId(tabId)
      modifies this
      ensures Valid()
      ensures activeTab == tabId && !isSidebarOpen
      ensures selectedMonument == old(selectedMonument) && dynamicBackground == old(dynamicBackground)
    {
      activeTab := tabId;
      isSidebarOpen := false;
    }

    /** `handleSelectMonument`: a monument is selected, its background shown
        and the information tab opened; `null` clears the selection and the
        background and keeps the tab. The sidebar closes either way. */
    method HandleSelectMonument(monument: Option<Monument>)
      requires Valid()
      modifies this
      ensures Valid()
      ensures selectedMonument == monument && !isSidebarOpen
      ensures monument.Some? ==>
        dynamicBackground == Some(BackgroundFor(monument.value.name)) && activeTab == "info"
      ensures monument.None? ==> dynamicBackground == None && activeTab == old(activeTab)
    {
      selectedMonument := monument;
      if monument.Some? {
        dynamicBackground := Some(BackgroundFor(monument.value.name));
        activeTab := "info";
        Constants.TabIds();
      } else {
        dynamicBackground := None;
      }
      isSidebarOpen := false;
    }

    /** `handleRecognitionSuccess`: select the reconciled monument, show its
        background and open the information tab; the sidebar is left alone. */
    method HandleRecognitionSuccess(monumentName: string, now: int)
      modifies this
      ensures Valid()
      ensures selectedMonument == Some(Reconcile(Constants.MONUMENTS, monumentName, now))
      ensures dynamicBackground == Some(BackgroundFor(Reconcile(Constants.MONUMENTS, monumentName, now).name))
      ensures activeTab == "info" && isSidebarOpen == old(isSidebarOpen)
    {
      var m := Reconcile(Constants.MONUMENTS, monumentName, now);
      ShowRecognised(m);
    }

    /** The three updates `handleRecognitionSuccess` makes once it has its
        monument: select it, show its background, open the information tab. */
    method ShowRecognised(m: Monument)
      modifies this
      ensures Valid()
      ensures selectedMonument == Some(m) && dynamicBackground == Some(BackgroundFor(m.name))
      ensures activeTab == "info" && isSidebarOpen == old(isSidebarOpen)
    {
      selectedMonument := Some(m);
      dynamicBackground := Some(BackgroundFor(m.name));
      activeTab := "info";
      assert Constants.TABS[1].id == "info";
    }

    /** The menu button of the small layout opens the sidebar. */
    method OpenSidebar()
      modifies this
      ensures isSidebarOpen
      ensures activeTab == old(activeTab) && selectedMonument == old(selectedMonument)
      ensures dynamicBackground == old(dynamicBackground)
    {
      isSidebarOpen := true;
    }

    /** The sidebar's `setIsSidebarOpen(false)`, from its overlay and its
        close button: the sidebar closes; nothing else changes. */
    method CloseSidebar()
      modifies this
      ensures !isSidebarOpen
      ensures activeTab == old(activeTab) && selectedMonument == old(selectedMonument)
      ensures dynamicBackground == old(dynamicBackground)
    {
      isSidebarOpen := false;
    }
  }
}
