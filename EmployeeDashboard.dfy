/**
 * The state of the employee dashboard: the authentication guard, the two fetches
 * started on mount, the assigned-apps filter, the search box, and the popups for
 * record details, writing a reply and viewing the replies sent to a user.
 */
module EmployeeDashboard {
  import opened Wrappers
  import opened Text
  import opened Subsequences
  import opened Feedback

  const NoTokenError: string := "No authentication token found. Please log in again."
  const AppsError: string := "Failed to fetch assigned apps"
  const FormatError: string := "Unexpected response format."
  const FeedbackError: string := "Failed to fetch feedback"
  const ReplySubject: string := "Feedback Reply"

  /** A stored string is truthy when it is present and not empty. */
  predicate Truthy(s: Option<string>) {
    s.Some? && s.value != ""
  }

  /** How the `check-assigned-apps` request ended; `apps` is the payload's `assignedApps` when it is truthy. */
  datatype AppsOutcome = AppsPayload(apps: Option<seq<string>>) | AppsFailed

  /** How the `get_feedback` request ended: an array payload, some other payload, or an error. */
  datatype FeedbacksOutcome = ArrayPayload(records: seq<FeedbackRecord>) | OtherPayload | FeedbacksFailed

  /** One reply as the `replies-by-email` request returns it. */
  datatype Reply = Reply(email: string, subject: string, message: string, timestamp: string)

  /** `{ ...employee, replies }`: a record together with the replies fetched for it. */
  datatype RecordWithReplies = RecordWithReplies(record: FeedbackRecord, replies: seq<Reply>)

  /** How the `replies-by-email` request ended. */
  datatype RepliesOutcome = RepliesPayload(success: bool, data: seq<Reply>) | RepliesFailed

  /** The body of the `send-reply` request. */
  datatype ReplyRequest = ReplyRequest(email: string, subject: string, message: string)

  /** How the `send-reply` request ended; `message` is the response's `message`, if any. */
  datatype SendOutcome = Responded(message: Option<string>) | SendFailed

  /** The rows the assigned-apps effect shows. */
  function AssignedFilter(feedbacks: seq<FeedbackRecord>, assignedApps: seq<string>): seq<FeedbackRecord> {
    if |feedbacks| > 0 && |assignedApps| > 0 then Filter(feedbacks, AppAssigned(assignedApps)) else []
  }

  /**
   * The assigned-apps view is the order-preserving subsequence of the feedback
   * whose app is assigned; the emptiness guard changes nothing.
   */
  lemma AssignedFilterSpec(feedbacks: seq<FeedbackRecord>, assignedApps: seq<string>)
    ensures AssignedFilter(feedbacks, assignedApps) == Filter(feedbacks, AppAssigned(assignedApps))
    ensures IsSubsequence(AssignedFilter(feedbacks, assignedApps), feedbacks)
    ensures forall x :: x in AssignedFilter(feedbacks, assignedApps) <==> x in feedbacks && x.appName in assignedApps
    ensures forall x :: multiset(AssignedFilter(feedbacks, assignedApps))[x] ==
              if x.appName in assignedApps then multiset(feedbacks)[x] else 0
  {
    if |assignedApps| == 0 {
      FilterKeepsNone(feedbacks, AppAssigned(assignedApps));
    }
    FilterIsSubsequence(feedbacks, AppAssigned(assignedApps));
    FilterMembers(feedbacks, AppAssigned(assignedApps));
    FilterCounts(feedbacks, AppAssigned(assignedApps));
  }

  /** The rows the search box shows for `input`. */
  function DashboardSearch(feedbacks: seq<FeedbackRecord>, assignedApps: seq<string>, input: string): seq<FeedbackRecord> {
    Filter(feedbacks, Both(AppAssigned(assignedApps), MatchesQuery(Lower(input))))
  }

  /** The search filters the assigned-apps view further. */
  lemma DashboardSearchWithinView(feedbacks: seq<FeedbackRecord>, assignedApps: seq<string>, input: string)
    ensures DashboardSearch(feedbacks, assignedApps, input)
         == Filter(AssignedFilter(feedbacks, assignedApps), MatchesQuery(Lower(input)))
  {
    AssignedFilterSpec(feedbacks, assignedApps);
    FilterBoth(feedbacks, AppAssigned(assignedApps), MatchesQuery(Lower(input)));
  }

  /**
   * The search keeps, in feedback order, exactly the assigned records having a
   * field whose lower-cased text includes the lower-cased input.
   */
  lemma DashboardSearchSpec(feedbacks: seq<FeedbackRecord>, assignedApps: seq<string>, input: string)
    ensures IsSubsequence(DashboardSearch(feedbacks, assignedApps, input), feedbacks)
    ensures forall x :: x in DashboardSearch(feedbacks, assignedApps, input) <==>
      x in feedbacks && x.appName in assignedApps && Matches(x, Lower(input))
    ensures forall x :: multiset(DashboardSearch(feedbacks, assignedApps, input))[x] ==
              if x.appName in assignedApps && Matches(x, Lower(input)) then multiset(feedbacks)[x] else 0
  {
    var c := Both(AppAssigned(assignedApps), MatchesQuery(Lower(input)));
    FilterIsSubsequence(feedbacks, c);
    FilterMembers(feedbacks, c);
    FilterCounts(feedbacks, c);
    forall x
      ensures Holds(c, x) <==> x.appName in assignedApps && Matches(x, Lower(input))
    {
      assert Holds(c, x) == (Holds(AppAssigned(assignedApps), x) && Holds(MatchesQuery(Lower(input)), x));
    }
  }

  /** With an empty search box the search shows the assigned-apps view. */
  lemma DashboardSearchEmpty(feedbacks: seq<FeedbackRecord>, assignedApps: seq<string>)
    ensures DashboardSearch(feedbacks, assignedApps, "") == AssignedFilter(feedbacks, assignedApps)
  {
    var view := AssignedFilter(feedbacks, assignedApps);
    DashboardSearchWithinView(feedbacks, assignedApps, "");
    forall x | x in view
      ensures Holds(MatchesQuery(Lower("")), x)
    {
      MatchesEmptyQuery(x);
    }
    FilterKeepsAll(view, MatchesQuery(Lower("")));
  }

  class Dashboard {
    var feedbacks: seq<FeedbackRecord>
    var filteredFeedbacks: seq<FeedbackRecord>
    var loading: bool
    var error: string
    var searchQuery: string
    var assignedApps: seq<string>
    var selectedEmployee: Option<FeedbackRecord>
    var replyEmployee: Option<FeedbackRecord>
    var viewreplyEmployee: Option<RecordWithReplies>
    var replyMessage: string

    /** The rows shown are feedback records, in feedback order, of assigned apps only. */
    ghost predicate Valid()
      reads this
    {
      IsSubsequence(filteredFeedbacks, feedbacks) &&
      forall x :: x in filteredFeedbacks ==> x.appName in assignedApps
    }

    constructor()
      ensures Valid()
      ensures feedbacks == [] && filteredFeedbacks == [] && assignedApps == []
      ensures loading && error == "" && searchQuery == ""
      ensures selectedEmployee == None && replyEmployee == None && viewreplyEmployee == None
      ensures replyMessage == ""
    {
      feedbacks := [];
      filteredFeedbacks := [];
      loading := true;
      error := "";
      searchQuery := "";
      assignedApps := [];
      selectedEmployee := None;
      replyEmployee := None;
      viewreplyEmployee := None;
      replyMessage := "";
    }

    /** The effect that runs whenever `feedbacks` or `assignedApps` is replaced. */
    method ApplyAssignedFilter()
      modifies this
      ensures Valid()
      ensures filteredFeedbacks == AssignedFilter(feedbacks, assignedApps)
      ensures feedbacks == old(feedbacks) && assignedApps == old(assignedApps)
      ensures loading == old(loading) && error == old(error) && searchQuery == old(searchQuery)
      ensures selectedEmployee == old(selectedEmployee) && replyEmployee == old(replyEmployee)
      ensures viewreplyEmployee == old(viewreplyEmployee) && replyMessage == old(replyMessage)
    {
      if |feedbacks| > 0 && |assignedApps| > 0 {
        filteredFeedbacks := Filter(feedbacks, AppAssigned(assignedApps));
      } else {
        filteredFeedbacks := [];
      }
      AssignedFilterSpec(feedbacks, assignedApps);
    }

    /**
     * The mount effect's guard: without a truthy stored email and token nothing is
     * fetched and the error is shown; otherwise both requests are started.
     */
    method Mount(email: Option<string>, token: Option<string>) returns (fetching: bool)
      modifies this
      ensures fetching <==> Truthy(email) && Truthy(token)
      ensures !fetching ==> error == NoTokenError && !loading
      ensures fetching ==> error == old(error) && loading == old(loading)
      ensures feedbacks == old(feedbacks) && filteredFeedbacks == old(filteredFeedbacks)
      ensures assignedApps == old(assignedApps) && searchQuery == old(searchQuery)
      ensures selectedEmployee == old(selectedEmployee) && replyEmployee == old(replyEmployee)
      ensures viewreplyEmployee == old(viewreplyEmployee) && replyMessage == old(replyMessage)
    {
      if !Truthy(email) || !Truthy(token) {
        error := NoTokenError;
        loading := false;
        return false;
      }
      return true;
    }

    /** The end of the assigned-apps request; `loading` is left alone. */
    method AssignedAppsResponded(outcome: AppsOutcome)
      requires Valid()
      modifies this
      ensures Valid()
      ensures outcome.AppsPayload? && outcome.apps.Some? ==>
        assignedApps == outcome.apps.value && filteredFeedbacks == AssignedFilter(feedbacks, assignedApps)
      ensures outcome.AppsPayload? && outcome.apps.None? ==>
        assignedApps == old(assignedApps) && filteredFeedbacks == old(filteredFeedbacks)
      ensures outcome.AppsFailed? ==>
        assignedApps == old(assignedApps) && filteredFeedbacks == old(filteredFeedbacks)
      ensures error == (if outcome.AppsFailed? then AppsError else old(error))
      ensures feedbacks == old(feedbacks) && loading == old(loading) && searchQuery == old(searchQuery)
      ensures selectedEmployee == old(selectedEmployee) && replyEmployee == old(replyEmployee)
      ensures viewreplyEmployee == old(viewreplyEmployee) && replyMessage == old(replyMessage)
    {
      match outcome {
        case AppsPayload(apps) =>
          if apps.Some? {
            assignedApps := apps.value;
            ApplyAssignedFilter();
          }
        case AppsFailed =>
          error := AppsError;
      }
    }

    /** The end of the feedback request; `loading` ends false whatever happened. */
    method FeedbacksResponded(outcome: FeedbacksOutcome)
      requires Valid()
      modifies this
      ensures Valid()
      ensures !loading
      ensures outcome.ArrayPayload? ==>
        feedbacks == outcome.records && filteredFeedbacks == AssignedFilter(feedbacks, assignedApps) &&
        error == old(error)
      ensures outcome.OtherPayload? ==>
        feedbacks == old(feedbacks) && filteredFeedbacks == old(filteredFeedbacks) && error == FormatError
      ensures outcome.FeedbacksFailed? ==>
        feedbacks == old(feedbacks) && filteredFeedbacks == old(filteredFeedbacks) && error == FeedbackError
      ensures assignedApps == old(assignedApps) && searchQuery == old(searchQuery)
      ensures selectedEmployee == old(selectedEmployee) && replyEmployee == old(replyEmployee)
      ensures viewreplyEmployee == old(viewreplyEmployee) && replyMessage == old(replyMessage)
    {
      match outcome {
        case ArrayPayload(records) =>
          feedbacks := records;
          ApplyAssignedFilter();
        case OtherPayload =>
          error := FormatError;
        case FeedbacksFailed =>
          error := FeedbackError;
      }
      loading := false;
    }

    /** Typing `input` into the search box. */
    method HandleSearch(input: string)
      requires Valid()
      modifies this
      ensures Valid()
      ensures searchQuery == Lower(input)
      ensures filteredFeedbacks == DashboardSearch(feedbacks, assignedApps, input)
      ensures feedbacks == old(feedbacks) && assignedApps == old(assignedApps)
      ensures loading == old(loading) && error == old(error)
      ensures selectedEmployee == old(selectedEmployee) && replyEmployee == old(replyEmployee)
      ensures viewreplyEmployee == old(viewreplyEmployee) && replyMessage == old(replyMessage)
    {
      var query := Lower(input);
      searchQuery := query;
      filteredFeedbacks := Filter(feedbacks, Both(AppAssigned(assignedApps), MatchesQuery(query)));
      DashboardSearchSpec(feedbacks, assignedApps, input);
    }

    /** A click on a row opens its details. */
    method HandleRowClick(employee: FeedbackRecord)
      modifies this
      ensures selectedEmployee == Some(employee)
      ensures replyEmployee == old(replyEmployee) && viewreplyEmployee == old(viewreplyEmployee)
      ensures replyMessage == old(replyMessage)
      ensures feedbacks == old(feedbacks) && filteredFeedbacks == old(filteredFeedbacks)
      ensures assignedApps == old(assignedApps) && searchQuery == old(searchQuery)
      ensures loading == old(loading) && error == old(error)
    {
      selectedEmployee := Some(employee);
    }

    /** The Reply button: open the reply popup in place of the details with an empty message. */
    method HandleReply(employee: FeedbackRecord)
      modifies this
      ensures replyEmployee == Some(employee) && selectedEmployee == None && replyMessage == ""
      ensures viewreplyEmployee == old(viewreplyEmployee)
      ensures feedbacks == old(feedbacks) && filteredFeedbacks == old(filteredFeedbacks)
      ensures assignedApps == old(assignedApps) && searchQuery == old(searchQuery)
      ensures loading == old(loading) && error == old(error)
    {
      replyEmployee := Some(employee);
      selectedEmployee := None;
      replyMessage := "";
    }

    /** Typing into the reply text area. */
    method EditReplyMessage(text: string)
      modifies this
      ensures replyMessage == text
      ensures selectedEmployee == old(selectedEmployee) && replyEmployee == old(replyEmployee)
      ensures viewreplyEmployee == old(viewreplyEmployee)
      ensures feedbacks == old(feedbacks) && filteredFeedbacks == old(filteredFeedbacks)
      ensures assignedApps == old(assignedApps) && searchQuery == old(searchQuery)
      ensures loading == old(loading) && error == old(error)
    {
      replyMessage := text;
    }

    /** Closing any popup clears all three popup slots but keeps the typed message. */
    method HandleClosePopup()
      modifies this
      ensures selectedEmployee == None && replyEmployee == None && viewreplyEmployee == None
      ensures replyMessage == old(replyMessage)
      ensures feedbacks == old(feedbacks) && filteredFeedbacks == old(filteredFeedbacks)
      ensures assignedApps == old(assignedApps) && searchQuery == old(searchQuery)
      ensures loading == old(loading) && error == old(error)
    {
      selectedEmployee := None;
      replyEmployee := None;
      viewreplyEmployee := None;
    }

    /**
     * Submit Reply: the request it starts, if any. A blank message is refused
     * before any request; with no reply popup open, reading its email throws
     * inside the `try` and nothing is sent. Starting the request changes no state.
     */
    method SubmitReplies() returns (request: Option<ReplyRequest>)
      ensures request.None? <==> IsBlank(replyMessage) || replyEmployee.None?
      ensures request.None? ==> AllWhitespace(replyMessage) || replyEmployee.None?
      ensures request.Some? ==>
        request.value == ReplyRequest(replyEmployee.value.email, ReplySubject, replyMessage)
    {
      BlankIffAllWhitespace(replyMessage);
      if IsBlank(replyMessage) {
        return None;
      }
      if replyEmployee.None? {
        return None;
      }
      request := Some(ReplyRequest(replyEmployee.value.email, ReplySubject, replyMessage));
    }

    /**
     * The end of a `send-reply` request. A response with a truthy `message` closes
     * whichever reply popup is open now and clears the text typed now; any other
     * end changes nothing.
     */
    method ReplySent(outcome: SendOutcome)
      modifies this
      ensures outcome.Responded? && Truthy(outcome.message) ==>
        replyEmployee == None && replyMessage == ""
      ensures !(outcome.Responded? && Truthy(outcome.message)) ==>
        replyEmployee == old(replyEmployee) && replyMessage == old(replyMessage)
      ensures selectedEmployee == old(selectedEmployee) && viewreplyEmployee == old(viewreplyEmployee)
      ensures feedbacks == old(feedbacks) && filteredFeedbacks == old(filteredFeedbacks)
      ensures assignedApps == old(assignedApps) && searchQuery == old(searchQuery)
      ensures loading == old(loading) && error == old(error)
    {
      if outcome.Responded? && Truthy(outcome.message) {
        replyEmployee := None;
        replyMessage := "";
      }
    }

    /**
     * The View Reply button: the email whose replies are requested. Starting the
     * request changes no state.
     */
    method HandleViewReply(employee: FeedbackRecord) returns (queriedEmail: string)
      ensures queriedEmail == employee.email
    {
      queriedEmail := employee.email;
    }

    /**
     * The end of the `replies-by-email` request started for `employee`: a
     * successful response opens the popup with the record and those replies,
     * replacing whatever it showed; any other end changes nothing.
     */
    method RepliesResponded(employee: FeedbackRecord, outcome: RepliesOutcome)
      modifies this
      ensures outcome.RepliesPayload? && outcome.success ==>
        viewreplyEmployee == Some(RecordWithReplies(employee, outcome.data))
      ensures !(outcome.RepliesPayload? && outcome.success) ==> viewreplyEmployee == old(viewreplyEmployee)
      ensures selectedEmployee == old(selectedEmployee) && replyEmployee == old(replyEmployee)
      ensures replyMessage == old(replyMessage)
      ensures feedbacks == old(feedbacks) && filteredFeedbacks == old(filteredFeedbacks)
      ensures assignedApps == old(assignedApps) && searchQuery == old(searchQuery)
      ensures loading == old(loading) && error == old(error)
    {
      if outcome.RepliesPayload? && outcome.success {
        viewreplyEmployee := Some(RecordWithReplies(employee, outcome.data));
      }
    }
  }
}
