/** The reference data (`constants.ts`): the landmark catalog and the navigation tabs. */
module Constants {
  import opened Types
  import opened JsText
  import Seqs

  /** The fixed catalog, in its source order. */
  const MONUMENTS: seq<Monument> := [
    Monument(1, "Taj Mahal", 27.1751, 78.0421, "Mausoleum"),
    Monument(2, "Qutub Minar", 28.5245, 77.1855, "Minaret"),
    Monument(3, "India Gate", 28.6129, 77.2295, "War Memorial"),
    Monument(4, "Gateway of India", 18.9220, 72.8347, "Arch-monument"),
    Monument(5, "Hawa Mahal", 26.9239, 75.8267, "Palace"),
    Monument(6, "Mysore Palace", 12.3052, 76.6552, "Palace"),
    Monument(7, "Victoria Memorial", 22.5448, 88.3426, "Memorial"),
    Monument(8, "Charminar", 17.3616, 78.4747, "Monument"),
    Monument(9, "Konark Sun Temple", 19.8876, 86.0945, "Temple"),
    Monument(10, "Red Fort", 28.6562, 77.2410, "Fort")
  ]

  /** The navigation tabs, in their display order. */
  const TABS: seq<Tab> := [
    Tab("recognize", "Recognize", "ph-om"),
    Tab("info", "Information", "ph-book-open-text"),
    Tab("rush", "Crowd Predict", "ph-users-three"),
    Tab("nearby", "Nearby", "ph-map-pin"),
    Tab("ai-guide", "AI Guide", "ph-robot")
  ]

  /** The answer the recognition prompt asks for when nothing is recognised. */
  const UNKNOWN_MONUMENT: string := "Unknown Monument"

  /** The ids the tabs offer. */
  predicate IsTabId(id: string) {
    exists i :: 0 <= i < |TABS| && TABS[i].id == id
  }

  /** The catalog holds ten entries whose ids are 1 to 10 in order. */
  lemma CatalogIds()
    ensures |MONUMENTS| == 10
    ensures forall i :: 0 <= i < |MONUMENTS| ==> MONUMENTS[i].id == i + 1
  {
  }

  /** The lower-cased initial of each catalog name; they are pairwise distinct. */
  const INITIALS: seq<char> := ['t', 'q', 'i', 'g', 'h', 'm', 'v', 'c', 'k', 'r']

  lemma {:induction false} CatalogInitials()
    ensures forall i :: 0 <= i < |MONUMENTS| ==>
      MONUMENTS[i].name != [] && LowerChar(MONUMENTS[i].name[0]) == INITIALS[i]
  {
  }

  /** By name, two catalog entries compare by their initials alone, which are
      distinct upper-case letters. */
  lemma CatalogNameOrderIsInitialOrder(i: int, j: int)
    requires 0 <= i < |MONUMENTS| && 0 <= j < |MONUMENTS| && i != j
    ensures 'A' <= MONUMENTS[i].name[0] <= 'Z' && MONUMENTS[i].name[0] != MONUMENTS[j].name[0]
    ensures LexLe(MONUMENTS[i].name, MONUMENTS[j].name) <==> MONUMENTS[i].name[0] < MONUMENTS[j].name[0]
  {
    CatalogInitials();
    assert INITIALS[i] != INITIALS[j];
  }

  /** Two texts whose initials differ after lower-casing differ after lower-casing. */
  lemma LowerInitialsDiffer(a: string, b: string)
    requires a != [] && b != [] && LowerChar(a[0]) != LowerChar(b[0])
    ensures ToLower(a) != ToLower(b)
  {
    assert ToLower(a)[0] != ToLower(b)[0];
  }

  /** No two catalog names are equal once lower-cased, so the case-insensitive
      lookup of a recognised name matches at most one entry. */
  lemma {:induction false} CatalogNamesDistinctIgnoringCase()
    ensures forall i, j :: 0 <= i < j < |MONUMENTS| ==>
      ToLower(MONUMENTS[i].name) != ToLower(MONUMENTS[j].name)
  {
    CatalogInitials();
    forall i, j | 0 <= i < j < |MONUMENTS|
      ensures ToLower(MONUMENTS[i].name) != ToLower(MONUMENTS[j].name)
    {
      LowerInitialsDiffer(MONUMENTS[i].name, MONUMENTS[j].name);
    }
  }

  /** Each catalog entry occurs exactly once in the catalog. */
  lemma CatalogEntriesOccurOnce()
    ensures forall i :: 0 <= i < |MONUMENTS| ==> multiset(MONUMENTS)[MONUMENTS[i]] == 1
  {
    CatalogIds();
    NumberedEntriesDiffer(MONUMENTS);
    Seqs.DistinctOccursOnce(MONUMENTS);
  }

  /** Entries numbered by their position are pairwise distinct. */
  lemma NumberedEntriesDiffer(s: seq<Monument>)
    requires forall i :: 0 <= i < |s| ==> s[i].id == i + 1
    ensures forall i, j :: 0 <= i < j < |s| ==> s[i] != s[j]
  {
  }

  /** The "Unknown Monument" answer matches no catalog entry, whatever its case. */
  lemma {:induction false} SentinelNotInCatalog()
    ensures forall i :: 0 <= i < |MONUMENTS| ==>
      ToLower(MONUMENTS[i].name) != ToLower(UNKNOWN_MONUMENT)
  {
    CatalogInitials();
    forall i | 0 <= i < |MONUMENTS|
      ensures ToLower(MONUMENTS[i].name) != ToLower(UNKNOWN_MONUMENT)
    {
      LowerInitialsDiffer(MONUMENTS[i].name, UNKNOWN_MONUMENT);
    }
  }

  /** Every catalog latitude lies in [-90, 90] and every longitude in [-180, 180]. */
  lemma CatalogCoordinatesInRange()
    ensures forall i :: 0 <= i < |MONUMENTS| ==>
      -90.0 <= MONUMENTS[i].latitude <= 90.0 && -180.0 <= MONUMENTS[i].longitude <= 180.0
  {
  }

  /** The five tab ids are distinct and none of them is "chat". */
  lemma TabIds()
    ensures |TABS| == 5
    ensures forall i, j :: 0 <= i < j < |TABS| ==> TABS[i].id != TABS[j].id
    ensures !IsTabId("chat")
    ensures IsTabId("recognize") && IsTabId("info") && IsTabId("ai-guide")
  {
    assert TABS[0].id == "recognize" && TABS[1].id == "info" && TABS[4].id == "ai-guide";
  }
}
