/**
 * The state of the feedback table screen: the fetched list, the displayed list,
 * the column sort toggle, the search box and the detail popup.
 */
module FeedbackTable {
  import opened Wrappers
  import opened Text
  import opened Subsequences
  import opened Feedback
  import opened Sorting

  /** How the `get_feedback` request ended: with the payload's `data`, or with an error. */
  datatype FetchOutcome = Fetched(data: seq<FeedbackRecord>) | FetchFailed

  const FetchError: string := "Failed to fetch feedback"

  /**
   * The order a click on the header of `field` selects: descending exactly when
   * `field` is already sorted ascending, ascending otherwise (also on the first click).
   */
  function NextOrder(sortField: Option<Field>, sortOrder: Order, field: Field): (o: Order)
    ensures o == Desc <==> sortField == Some(field) && sortOrder == Asc
  {
    if sortField == Some(field) && sortOrder == Asc then Desc else Asc
  }

  /** Clicking the same header again always flips the order. */
  lemma SecondClickFlips(sortField: Option<Field>, sortOrder: Order, field: Field)
    ensures NextOrder(Some(field), NextOrder(sortField, sortOrder, field), field)
         != NextOrder(sortField, sortOrder, field)
  {
  }

  /** The records of `employees` found by the search box holding `input`. */
  function Search(employees: seq<FeedbackRecord>, input: string): seq<FeedbackRecord> {
    Filter(employees, MatchesQuery(Lower(input)))
  }

  /**
   * The search keeps, in their order in `employees` and as often as they occur
   * there, exactly the records having a field whose lower-cased text includes
   * the lower-cased input.
   */
  lemma SearchSpec(employees: seq<FeedbackRecord>, input: string)
    ensures IsSubsequence(Search(employees, input), employees)
    ensures forall x :: x in Search(employees, input) <==> x in employees && Matches(x, Lower(input))
    ensures forall x :: multiset(Search(employees, input))[x] ==
              if Matches(x, Lower(input)) then multiset(employees)[x] else 0
  {
    FilterIsSubsequence(employees, MatchesQuery(Lower(input)));
    FilterMembers(employees, MatchesQuery(Lower(input)));
    FilterCounts(employees, MatchesQuery(Lower(input)));
  }

  /** An empty search box shows every record. */
  lemma SearchEmptyShowsAll(employees: seq<FeedbackRecord>)
    ensures Search(employees, "") == employees
  {
    forall x | x in employees
      ensures Holds(MatchesQuery(Lower("")), x)
    {
      MatchesEmptyQuery(x);
    }
    FilterKeepsAll(employees, MatchesQuery(Lower("")));
  }

  /** The search ignores the case of ASCII letters in the input. */
  lemma SearchIgnoresCase(employees: seq<FeedbackRecord>, input: string)
    ensures Search(employees, Lower(input)) == Search(employees, input)
  {
    LowerIdempotent(input);
  }

  /** Searching the result of a search again for the same input changes nothing. */
  lemma SearchIdempotent(employees: seq<FeedbackRecord>, input: string)
    ensures Search(Search(employees, input), input) == Search(employees, input)
  {
    FilterIdempotent(employees, MatchesQuery(Lower(input)));
  }

  class Table {
    var employees: seq<FeedbackRecord>
    var filteredEmployees: seq<FeedbackRecord>
    var loading: bool
    var error: string
    var sortField: Option<Field>
    var sortOrder: Order
    var searchQuery: string
    var selectedEmployee: Option<FeedbackRecord>

    /** The displayed rows are always drawn from the fetched records. */
    ghost predicate Valid()
      reads this
    {
      multiset(filteredEmployees) <= multiset(employees)
    }

    constructor()
      ensures Valid()
      ensures employees == [] && filteredEmployees == []
      ensures loading && error == ""
      ensures sortField == None && sortOrder == Asc
      ensures searchQuery == "" && selectedEmployee == None
    {
      employees := [];
      filteredEmployees := [];
      loading := true;
      error := "";
      sortField := None;
      sortOrder := Asc;
      searchQuery := "";
      selectedEmployee := None;
    }

    /** The end of the mount-time fetch. */
    method FetchCompleted(outcome: FetchOutcome)
      requires Valid()
      modifies this
      ensures Valid()
      ensures !loading
      ensures outcome.Fetched? ==>
        employees == outcome.data && filteredEmployees == outcome.data && error == old(error)
      ensures outcome.FetchFailed? ==>
        employees == old(employees) && filteredEmployees == old(filteredEmployees) && error == FetchError
      ensures sortField == old(sortField) && sortOrder == old(sortOrder)
      ensures searchQuery == old(searchQuery) && selectedEmployee == old(selectedEmployee)
    {
      match outcome {
        case Fetched(data) =>
          employees := data;
          filteredEmployees := data;
        case FetchFailed =>
          error := FetchError;
      }
      loading := false;
    }

    /**
     * A click on the header of `field`: toggle the order, then sort a copy of the
     * displayed rows by `field` in that order.
     */
    method HandleSort(field: Field)
      requires Valid()
      modifies this
      ensures Valid()
      ensures sortField == Some(field)
      ensures sortOrder == NextOrder(old(sortField), old(sortOrder), field)
      ensures filteredEmployees == SortedBy(old(filteredEmployees), KeyOrder(field, sortOrder))
      ensures multiset(filteredEmployees) == multiset(old(filteredEmployees))
      ensures employees == old(employees)
      ensures loading == old(loading) && error == old(error)
      ensures searchQuery == old(searchQuery) && selectedEmployee == old(selectedEmployee)
    {
      var order := NextOrder(sortField, sortOrder, field);
      sortField := Some(field);
      sortOrder := order;
      var rows := filteredEmployees;
      SortedByPermutes(rows, KeyOrder(field, order));
      filteredEmployees := SortCopy(rows, KeyOrder(field, order));
    }

    /** Typing `input` into the search box. */
    method HandleSearch(input: string)
      requires Valid()
      modifies this
      ensures Valid()
      ensures searchQuery == Lower(input)
      ensures filteredEmployees == Search(employees, input)
      ensures employees == old(employees)
      ensures sortField == old(sortField) && sortOrder == old(sortOrder)
      ensures loading == old(loading) && error == old(error) && selectedEmployee == old(selectedEmployee)
    {
      var query := Lower(input);
      searchQuery := query;
      filteredEmployees := Filter(employees, MatchesQuery(query));
      SearchSpec(employees, input);
    }

    method HandleRowClick(employee: FeedbackRecord)
      modifies this
      ensures selectedEmployee == Some(employee)
      ensures employees == old(employees) && filteredEmployees == old(filteredEmployees)
      ensures loading == old(loading) && error == old(error)
      ensures sortField == old(sortField) && sortOrder == old(sortOrder) && searchQuery == old(searchQuery)
    {
      selectedEmployee := Some(employee);
    }

    method HandleClosePopup()
      modifies this
      ensures selectedEmployee == None
      ensures employees == old(employees) && filteredEmployees == old(filteredEmployees)
      ensures loading == old(loading) && error == old(error)
      ensures sortField == old(sortField) && sortOrder == old(sortOrder) && searchQuery == old(searchQuery)
    {
      selectedEmployee := None;
    }
  }
}
