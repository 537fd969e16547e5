/**
 * The drop-down of `components/common/SearchableSelect.tsx`: a
 * case-insensitive substring filter over the options, and the open flag
 * and search term the list's handlers update.
 */
module SearchableSelect {
  import opened Types
  import opened JsText
  import opened Seqs

  const NO_RESULTS: string := "No results found"

  /** The filter test: the lower-cased name contains the lower-cased term. */
  function MatchesTerm(searchTerm: string): (p: Monument -> bool)
    ensures forall option :: p(option) <==> Includes(ToLower(option.name), ToLower(searchTerm))
  {
    (option: Monument) => Includes(ToLower(option.name), ToLower(searchTerm))
  }

  /** `filteredOptions`: the options whose name contains the term, ignoring
      case, each as often as it is offered and in the offered order. */
  function FilteredOptions(options: seq<Monument>, searchTerm: string): (r: seq<Monument>)
    ensures |r| <= |options|
    ensures forall i :: 0 <= i < |r| ==> Includes(ToLower(r[i].name), ToLower(searchTerm))
    ensures forall o :: o in r <==> o in options && Includes(ToLower(o.name), ToLower(searchTerm))
    ensures Subsequence(r, options)
  {
    FilterMembers(options, MatchesTerm(searchTerm));
    FilterIsSubsequence(options, MatchesTerm(searchTerm));
    Filter(options, MatchesTerm(searchTerm))
  }

  /** Every matching option is listed exactly as often as it is offered. */
  lemma FilteredOptionsCounts(options: seq<Monument>, searchTerm: string, o: Monument)
    ensures multiset(FilteredOptions(options, searchTerm))[o]
         == if Includes(ToLower(o.name), ToLower(searchTerm)) then multiset(options)[o] else 0
  {
    FilterCounts(options, MatchesTerm(searchTerm));
  }

  /** An empty search term lists every option. */
  lemma EmptyTermListsAll(options: seq<Monument>)
    ensures FilteredOptions(options, "") == options
  {
    forall i | 0 <= i < |options| ensures MatchesTerm("")(options[i]) {
      IncludesEmpty(ToLower(options[i].name));
    }
    FilterKeepsAll(options, MatchesTerm(""));
  }

  /** The term's case does not matter. */
  lemma TermCaseIgnored(options: seq<Monument>, searchTerm: string)
    ensures FilteredOptions(options, ToLower(searchTerm)) == FilteredOptions(options, searchTerm)
  {
    ToLowerIdempotent(searchTerm);
    assert MatchesTerm(ToLower(searchTerm)) == MatchesTerm(searchTerm);
  }

  /** One row of the open list: an option the user can pick, or the
      "No results found" placeholder, which cannot be picked. */
  datatype Row = OptionRow(option: Monument) | NoResultsRow {
    /** The text the row displays. */
    function Text(): string {
      if OptionRow? then option.name else NO_RESULTS
    }
  }

  /** The rows the open list shows: the filtered options in their order, or
      the one placeholder row when none is left. */
  function Rows(options: seq<Monument>, searchTerm: string): (rows: seq<Row>)
    ensures rows == [NoResultsRow] <==> FilteredOptions(options, searchTerm) == []
    ensures FilteredOptions(options, searchTerm) != [] ==>
      && |rows| == |FilteredOptions(options, searchTerm)|
      && forall i :: 0 <= i < |rows| ==> rows[i] == OptionRow(FilteredOptions(options, searchTerm)[i])
    ensures FilteredOptions(options, searchTerm) == [] ==> rows[0].Text() == NO_RESULTS
    ensures FilteredOptions(options, searchTerm) != [] ==>
      forall i :: 0 <= i < |rows| ==> rows[i].Text() == FilteredOptions(options, searchTerm)[i].name
  {
    var shown := FilteredOptions(options, searchTerm);
    if |shown| > 0 then
      var rows := seq(|shown|, i requires 0 <= i < |shown| => OptionRow(shown[i]));
      assert rows[0] != NoResultsRow;
      rows
    else [NoResultsRow]
  }

  /** The placeholder is the only row exactly when no offered option
      matches the term. */
  lemma NoResultsIff(options: seq<Monument>, searchTerm: string)
    ensures Rows(options, searchTerm) == [NoResultsRow]
        <==> forall i :: 0 <= i < |options| ==> !Includes(ToLower(options[i].name), ToLower(searchTerm))
  {
    FilterEmptyIff(options, MatchesTerm(searchTerm));
  }

  /** The state of one select. */
  class Select {
    var isOpen: bool
    var searchTerm: string

    constructor()
      ensures !isOpen && searchTerm == ""
    {
      isOpen := false;
      searchTerm := "";
    }

    /** `handleSelect`: the option is reported, the term cleared and the list closed. */
    method HandleSelect(option: Monument) returns (reported: Monument)
      modifies this
      ensures reported == option
      ensures searchTerm == "" && !isOpen
    {
      reported := option;
      searchTerm := "";
      isOpen := false;
    }

    /** `handleToggle`: the list opens or closes; the term stays. */
    method HandleToggle()
      modifies this
      ensures isOpen == !old(isOpen) && searchTerm == old(searchTerm)
    {
      isOpen := !isOpen;
    }

    /** The document's `mousedown` listener: a press outside the select closes
        the list and clears the term; a press inside changes nothing. */
    method HandleMouseDown(inside: bool)
      modifies this
      ensures !inside ==> !isOpen && searchTerm == ""
      ensures inside ==> isOpen == old(isOpen) && searchTerm == old(searchTerm)
    {
      if !inside {
        isOpen := false;
        searchTerm := "";
      }
    }

    /** Typing into the search box. */
    method SetSearchTerm(t: string)
      modifies this
      ensures searchTerm == t && isOpen == old(isOpen)
    {
      searchTerm := t;
    }
  }
}
