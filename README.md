# Feedback frontend: table screens and navigation, modelled in Dafny

The repository is the React frontend of a feedback service. Administrators and
employees read the feedback records that users submit from apps, and employees
answer that feedback by e-mail. This project models the logic of three of its
files:

- **The feedback table** (`src/components/ShowFeedBackData.jsx`), as the class
  `FeedbackTable.Table`. A fetch fills the list. A click on a column header
  toggles the sort order and sorts a copy of the displayed rows. The search box
  filters the full fetched list again, case-insensitively. A click on a row opens
  a details popup.
- **The employee dashboard** (`src/pages/EmployeeDashboard.js`), as the class
  `EmployeeDashboard.Dashboard`. The class models:
  - the login guard on mount, and the results of the two requests the mount
    starts (the assigned apps and the feedback);
  - the effect that limits the rows to the assigned apps;
  - the search within those apps;
  - the three popup slots (details, write a reply, view replies) and the reply
    text buffer;
  - submitting a reply, with the whitespace guard;
  - fetching the replies sent to a user.
- **The navigation bar** (`src/pages/NavBar.js`), as the module `NavBar`. It
  holds `classNames`, the menu chosen by the stored role, and logout, which
  removes the session token and role from local storage.

The modules are:

- `Text`: ASCII lower-casing, `includes`, `trim`'s whitespace set, the
  JavaScript `<` on strings, and the decimal rendering of integers.
- `Subsequences`: order-preserving subsequences.
- `Feedback`: the record, its fields and values, and the order-preserving
  `filter` the searches are built from.
- `Sorting`: the column comparator and an insertion sort that is generic in its
  comparator. The sort is written once as a function and once as an in-place
  array method proved equal to it. The module also proves that every stable sort
  by the column comparator yields the same list, so the model's sort computes
  exactly what `Array.prototype.sort` computes.
- `FeedbackTable`, `EmployeeDashboard` and `NavBar`: one module per source file.
- `Wrappers`: `Option`.

Network requests are not made. Each request's result is a parameter of the
method that handles the response: `FetchOutcome`, `AppsOutcome`,
`FeedbacksOutcome`, `SendOutcome`, `RepliesOutcome`. The stored e-mail, token and
role are parameters, or come from a `LocalStorage` object.

Notes on the code:

- There is no per-record reply aggregation and no merging of replies by feedback
  id. Replies are fetched on demand, by the user's e-mail
  (`EmployeeDashboard.js:127`), and their order is not changed.
- The reply request carries `email`, `subject` and `message`, and no feedback
  id (`ReplyRequest`).
- A failed send, or a response without a truthy `message`, leaves the reply
  popup open and the message as typed. Only a truthy `message` closes the popup
  and clears the text.
- Without an open reply popup, reading `replyEmployee.email` throws inside the
  `try`, so no request is sent and nothing changes.
- The end of a request acts on the state at the time it arrives. A successful
  send closes whichever reply popup is open then and clears the text typed by
  then, even when the user has since opened another record's reply popup. When
  two View Reply requests are answered in the opposite order, the popup shows the
  record whose answer came last. The model starts each request in one method
  (`SubmitReplies`, `HandleViewReply`) and ends it in another (`ReplySent`,
  `RepliesResponded`), so every such interleaving is a sequence of calls.

## Model

| member | source | states |
|---|---|---|
| Text.LowerChar | src/components/ShowFeedBackData.jsx:43 | upper-case ASCII letters map 32 code points up; every other character is kept; no result is an upper-case letter |
| Text.Lower | src/components/ShowFeedBackData.jsx:43 | `toLowerCase` keeps the length and lower-cases each character by itself; LowerIdempotent and SearchIgnoresCase build on it |
| Text.Contains | src/components/ShowFeedBackData.jsx:46 | `includes`, written as "a prefix here or further on"; ContainsAt proves it means an occurrence at some offset |
| Text.LowerIdempotent | src/components/ShowFeedBackData.jsx:46 | lower-casing an already lower-cased string changes nothing, so lower-casing both sides is stable |
| Text.ContainsEmpty | src/components/ShowFeedBackData.jsx:46 | every string includes the empty query |
| Text.ContainsAt | src/components/ShowFeedBackData.jsx:46 | `includes` holds exactly when the query occurs at some offset (both directions) |
| Text.IsWhitespace | src/pages/EmployeeDashboard.js:88 | the characters `trim()` removes; the trim contracts and BlankIffAllWhitespace are stated in terms of it |
| Text.TrimStart | src/pages/EmployeeDashboard.js:88 | the result is a suffix of the input, does not start with whitespace, and everything dropped is whitespace |
| Text.TrimEnd | src/pages/EmployeeDashboard.js:88 | the result is a prefix of the input, does not end with whitespace, and everything dropped is whitespace |
| Text.Trim | src/pages/EmployeeDashboard.js:88 | the trimmed text occurs in the input at an offset where everything before it and everything after it is whitespace, and it has no whitespace at either end |
| Text.IsBlank | src/pages/EmployeeDashboard.js:88 | `!s.trim()`; BlankIffAllWhitespace proves it holds exactly for all-whitespace text |
| Text.BlankIffAllWhitespace | src/pages/EmployeeDashboard.js:88 | `!s.trim()` holds exactly when every character of `s` is whitespace |
| Text.TrimStartWhitespace | src/pages/EmployeeDashboard.js:88 | trimming the start of a string made only of whitespace leaves nothing |
| Text.StrLess | src/components/ShowFeedBackData.jsx:35-36 | JavaScript `<` on text, code point by code point with a proper prefix first; StrLessIrreflexive, StrLessAsymmetric, StrLessTransitive and StrLessTotal prove it a strict total order |
| Text.StrLessIrreflexive | src/components/ShowFeedBackData.jsx:35 | no string sorts before itself under `<` |
| Text.StrLessAsymmetric | src/components/ShowFeedBackData.jsx:35-36 | `a < b` and `b < a` never both hold |
| Text.StrLessTransitive | src/components/ShowFeedBackData.jsx:35-36 | `<` on strings is transitive |
| Text.StrLessTotal | src/components/ShowFeedBackData.jsx:35-36 | two different strings are ordered one way or the other |
| Text.Digit | src/components/ShowFeedBackData.jsx:46 | digit `d` renders as the character `d` places after '0' |
| Text.NatToString | src/components/ShowFeedBackData.jsx:46 | a natural number renders as a non-empty string of digits that denotes exactly that number, with no leading zero except for 0 itself |
| Text.IntToString | src/components/ShowFeedBackData.jsx:46 | `rate_star.toString()` is a minus sign exactly for negative numbers, then the digits of the absolute value without leading zeros |
| Text.IntToStringInjective | src/components/ShowFeedBackData.jsx:46 | different star ratings render as different strings, so the rating text determines the rating |
| Feedback.FieldValue | src/components/ShowFeedBackData.jsx:35 | `record[field]` is a number exactly for `rate_star` and text for every other field |
| Feedback.ToString | src/components/ShowFeedBackData.jsx:46 | `value.toString()`: text as it is, the star rating through IntToString, whose contract gives its decimal value |
| Feedback.Less | src/components/ShowFeedBackData.jsx:35-36 | JavaScript `<` on field values: code-point order on text, numeric order on the rating; the four lemmas below prove it a strict total order on each field |
| Feedback.LessIrreflexive | src/components/ShowFeedBackData.jsx:35 | no field value sorts before itself |
| Feedback.LessAsymmetric | src/components/ShowFeedBackData.jsx:35-36 | `a < b` and `a > b` never both hold for field values |
| Feedback.LessTransitive | src/components/ShowFeedBackData.jsx:35-36 | `<` on field values is transitive |
| Feedback.LessTotal | src/components/ShowFeedBackData.jsx:35-37 | two different values of the same field are ordered one way or the other, so the comparator returns 0 only for equal keys |
| Feedback.Matches | src/components/ShowFeedBackData.jsx:46 | some field value, rendered and lower-cased, includes the query; MatchesEmptyQuery and the search lemmas are built on it |
| Feedback.MatchesEmptyQuery | src/components/ShowFeedBackData.jsx:46 | every record matches the empty query |
| Feedback.Holds | src/components/ShowFeedBackData.jsx:45-47 | the filter callbacks of both screens (the query match here, the assigned-app test and the conjunction at EmployeeDashboard.js:66 and 76-78; its per-value test `HasValue` is not a source callback and serves only the stability lemmas of the sort); FilterCounts and FilterMembers state what a filter by it keeps |
| Feedback.Filter | src/components/ShowFeedBackData.jsx:45 | `filter` never makes a list longer |
| Feedback.FilterCounts | src/components/ShowFeedBackData.jsx:45-47 | the filtered list holds each record satisfying the condition exactly as often as the input, and nothing else |
| Feedback.FilterMembers | src/components/ShowFeedBackData.jsx:45-47 | a record is in the result exactly when it is in the input and satisfies the condition |
| Feedback.FilterSubmultiset | src/components/ShowFeedBackData.jsx:45 | the result takes no record more often than the input holds it |
| Feedback.FilterIsSubsequence | src/components/ShowFeedBackData.jsx:45 | the result keeps the input's order |
| Feedback.FilterAppend | src/components/ShowFeedBackData.jsx:45 | filtering a concatenation is concatenating the filtered parts |
| Feedback.FilterKeepsAll | src/components/ShowFeedBackData.jsx:45 | a condition every record meets keeps the list as it is |
| Feedback.FilterKeepsNone | src/pages/EmployeeDashboard.js:66 | a condition no record meets leaves nothing |
| Feedback.FilterIdempotent | src/components/ShowFeedBackData.jsx:45-47 | filtering twice by the same condition is filtering once |
| Feedback.FilterBoth | src/pages/EmployeeDashboard.js:76-78 | one filter by `c1 && c2` equals filtering by `c1` and then by `c2` |
| Sorting.CompareZero | src/components/ShowFeedBackData.jsx:35-37 | the comparator returns 0 exactly when the two records have the same key |
| Sorting.CompareAntisymmetric | src/components/ShowFeedBackData.jsx:35-37 | swapping the arguments negates the comparator's result |
| Sorting.CompareTransitive | src/components/ShowFeedBackData.jsx:35-37 | "sorts no later than" is transitive |
| Sorting.CompareFlip | src/components/ShowFeedBackData.jsx:35-36 | the descending comparator is the ascending one with its arguments swapped |
| Sorting.Compare | src/components/ShowFeedBackData.jsx:34-38 | the column comparator; CompareZero, CompareAntisymmetric, CompareTransitive and CompareFlip state what it means |
| Sorting.KeyOrder | src/components/ShowFeedBackData.jsx:34-38 | the comparator as the function value given to `sort`, agreeing with Compare on every pair; KeyOrderIsComparator proves it valid |
| Sorting.KeyOrderIsComparator | src/components/ShowFeedBackData.jsx:34-38 | the column comparator is antisymmetric and transitive, as `sort` requires |
| Sorting.Insert | src/components/ShowFeedBackData.jsx:34 | inserting one element makes the list one longer |
| Sorting.InsertPermutes | src/components/ShowFeedBackData.jsx:34 | insertion adds exactly the new element and keeps every other one |
| Sorting.SortedBy | src/components/ShowFeedBackData.jsx:34 | sorting keeps the length |
| Sorting.SortedByPermutes | src/components/ShowFeedBackData.jsx:34 | the sorted list is a permutation of the list it sorts |
| Sorting.AppendSorted | src/components/ShowFeedBackData.jsx:34-38 | appending an element that sorts no earlier than the last keeps a list sorted |
| Sorting.AppendLargest | src/components/ShowFeedBackData.jsx:34-38 | appending an element that nothing sorts after keeps a list sorted |
| Sorting.InsertSorted | src/components/ShowFeedBackData.jsx:34-38 | inserting into a sorted list keeps it sorted |
| Sorting.SortedBySorted | src/components/ShowFeedBackData.jsx:34-38 | for any valid comparator the insertion sort's result is sorted |
| Sorting.InsertAtGap | src/components/ShowFeedBackData.jsx:34 | insertion puts the new element right after the last element that does not sort after it |
| Sorting.SortedBySnoc | src/components/ShowFeedBackData.jsx:34 | sorting one more element is inserting it into the sorted rest |
| Sorting.InsertInPlace | src/components/ShowFeedBackData.jsx:34 | shifting element `i` back in the array leaves exactly the insertion of it into the prefix, and changes nothing after it |
| Sorting.SortInPlace | src/components/ShowFeedBackData.jsx:34-38 | the in-place array sort leaves exactly the insertion sort of the old contents |
| Sorting.SortCopy | src/components/ShowFeedBackData.jsx:34-38 | `[...rows].sort(cmp)` returns the insertion sort of `rows` |
| Sorting.SortedMeaning | src/components/ShowFeedBackData.jsx:35-37 | sorted ascending means the keys never decrease, and sorted descending means they never increase |
| Sorting.InsertStable | src/components/ShowFeedBackData.jsx:37 | insertion never moves an element past one with the same key |
| Sorting.SortedByStableAt | src/components/ShowFeedBackData.jsx:34-38 | for each key, the records with that key keep their relative order |
| Sorting.SortedByStable | src/components/ShowFeedBackData.jsx:34-38 | the column sort is stable |
| Sorting.SortedByColumn | src/components/ShowFeedBackData.jsx:34-38 | the column sort's result is sorted by the column and is a permutation of its input |
| Sorting.SortedPrefix | src/components/ShowFeedBackData.jsx:34-38 | every prefix of a sorted list is sorted |
| Sorting.FilterSnoc | src/components/ShowFeedBackData.jsx:34-38 | filtering a list with one more element at the end adds that element to the result exactly when it qualifies |
| Sorting.DropLastStable | src/components/ShowFeedBackData.jsx:34-38 | two lists that have the same records of one key, and end in the same record, have the same records of that key before it |
| Sorting.StableDropLast | src/components/ShowFeedBackData.jsx:34-38 | two stable arrangements that end in the same record stay stable without it |
| Sorting.MultisetDropLast | src/components/ShowFeedBackData.jsx:34 | two permutations of each other that end in the same element are permutations of each other without it |
| Sorting.LastKeysAgree | src/components/ShowFeedBackData.jsx:34-38 | two sorted lists with the same records end in records with the same key |
| Sorting.LastRecordsAgree | src/components/ShowFeedBackData.jsx:34-38 | two stable arrangements whose last keys agree end in the same record |
| Sorting.SortedStableUnique | src/components/ShowFeedBackData.jsx:34-38 | two sorted, stable permutations of each other are equal |
| Sorting.SortedByCharacterized | src/components/ShowFeedBackData.jsx:34-38 | every sorted, stable permutation of the rows is the model's sort of them, whatever algorithm `sort` uses |
| Sorting.ResortForgetsEarlierOrder | src/components/ShowFeedBackData.jsx:29-39 | sorting by a column again, in either order, forgets the earlier sort by that column |
| Sorting.ReverseCons | src/components/ShowFeedBackData.jsx:30-38 | reversing `[x] + s` puts `x` last |
| Sorting.ReverseMultiset | src/components/ShowFeedBackData.jsx:30-38 | reversal is a permutation |
| Sorting.FilterReverse | src/components/ShowFeedBackData.jsx:30-38 | filtering commutes with reversal |
| Sorting.ReverseSortedDescending | src/components/ShowFeedBackData.jsx:35-36 | an ascending list read backwards is descending |
| Sorting.ReverseStableWhenKeysDistinct | src/components/ShowFeedBackData.jsx:30-38 | with at most one record per key, reversal preserves stability |
| Sorting.DescendingIsReverseWhenKeysDistinct | src/components/ShowFeedBackData.jsx:30-38 | with distinct keys, clicking an ascending column again shows exactly the reversed rows |
| FeedbackTable.NextOrder | src/components/ShowFeedBackData.jsx:30 | the new order is descending exactly when the clicked field is the sorted field and the order is ascending; otherwise, including the first click, it is ascending |
| FeedbackTable.SecondClickFlips | src/components/ShowFeedBackData.jsx:30-32 | clicking the same header twice always flips the order |
| FeedbackTable.Search | src/components/ShowFeedBackData.jsx:43-47 | the filter over the fetched records by the lower-cased query; SearchSpec states what it keeps |
| FeedbackTable.SearchSpec | src/components/ShowFeedBackData.jsx:43-48 | the search result keeps the fetched order and holds each fetched record that has a field including the lower-cased query exactly as often as it was fetched, and no other record, whatever is shown now |
| FeedbackTable.SearchEmptyShowsAll | src/components/ShowFeedBackData.jsx:42-49 | an empty query shows every fetched record, in fetched order |
| FeedbackTable.SearchIgnoresCase | src/components/ShowFeedBackData.jsx:43 | typing the query in upper or lower case gives the same result |
| FeedbackTable.SearchIdempotent | src/components/ShowFeedBackData.jsx:42-49 | searching the result again for the same query changes nothing |
| FeedbackTable.Table.constructor | src/components/ShowFeedBackData.jsx:5-11 | the initial state is empty lists, loading, no error, no sort field, ascending and an empty query; the selection declared at line 51 starts empty |
| FeedbackTable.Table.FetchCompleted | src/components/ShowFeedBackData.jsx:13-27 | a successful fetch sets both lists to the data; a failed one sets only the error; `loading` ends false either way |
| FeedbackTable.Table.HandleSort | src/components/ShowFeedBackData.jsx:29-40 | the clicked field and the toggled order are stored, and the rows become a sorted permutation of the rows shown before; `employees` is not touched |
| FeedbackTable.Table.HandleSearch | src/components/ShowFeedBackData.jsx:42-49 | the lower-cased query is stored and the rows become the search over the fetched records; `employees` and the sort settings are not touched |
| FeedbackTable.Table.HandleRowClick | src/components/ShowFeedBackData.jsx:52-54 | the clicked record becomes the selected one; nothing else changes |
| FeedbackTable.Table.HandleClosePopup | src/components/ShowFeedBackData.jsx:56-58 | the selection is cleared; nothing else changes |
| EmployeeDashboard.AssignedFilterSpec | src/pages/EmployeeDashboard.js:64-70 | the assigned-apps view keeps feedback order and holds each record of an assigned app exactly as often as the feedback does, and no other record; it is empty when either list is empty, and the guard changes nothing |
| EmployeeDashboard.DashboardSearchWithinView | src/pages/EmployeeDashboard.js:72-79 | the search is the query filter applied to the assigned-apps view |
| EmployeeDashboard.DashboardSearchSpec | src/pages/EmployeeDashboard.js:76-79 | the search keeps feedback order and holds each record of an assigned app that has a field including the lower-cased query exactly as often as the feedback does, and no other record (both directions of membership) |
| EmployeeDashboard.DashboardSearchEmpty | src/pages/EmployeeDashboard.js:72-79 | an empty query shows the assigned-apps view |
| EmployeeDashboard.AssignedFilter | src/pages/EmployeeDashboard.js:64-70 | the rows the assigned-apps effect shows; AssignedFilterSpec states what it keeps |
| EmployeeDashboard.DashboardSearch | src/pages/EmployeeDashboard.js:76-79 | the rows the dashboard search shows; DashboardSearchSpec and DashboardSearchWithinView state what it keeps |
| EmployeeDashboard.Truthy | src/pages/EmployeeDashboard.js:19 | a stored string passes the falsy test exactly when it is present and not empty, as also used for the response `message` at line 100; Mount and ReplySent are stated with it |
| EmployeeDashboard.Dashboard.constructor | src/pages/EmployeeDashboard.js:7-12 | the initial state is empty lists, loading, no error and an empty query; the three popup slots declared at lines 81-83 start empty and the reply buffer declared at line 118 starts as "" |
| EmployeeDashboard.Dashboard.ApplyAssignedFilter | src/pages/EmployeeDashboard.js:64-70 | the effect's rows are the assigned-apps view of the current feedback; nothing else changes |
| EmployeeDashboard.Dashboard.Mount | src/pages/EmployeeDashboard.js:18-23 | requests start exactly when the stored e-mail and token are both truthy; otherwise the login error is set and `loading` ends false |
| EmployeeDashboard.Dashboard.AssignedAppsResponded | src/pages/EmployeeDashboard.js:25-38 | a truthy `assignedApps` payload is stored and the rows are recomputed; a falsy one changes nothing; a failure sets only the error; `loading` is left alone |
| EmployeeDashboard.Dashboard.FeedbacksResponded | src/pages/EmployeeDashboard.js:40-58 | an array payload is stored and the rows are recomputed; any other payload sets the format error; a failure sets the fetch error; `loading` ends false in all three cases |
| EmployeeDashboard.Dashboard.HandleSearch | src/pages/EmployeeDashboard.js:72-80 | the lower-cased query is stored and the rows become the assigned search over all the feedback |
| EmployeeDashboard.Dashboard.HandleRowClick | src/pages/EmployeeDashboard.js:84-86 | the clicked record opens in the details popup; nothing else changes |
| EmployeeDashboard.Dashboard.SubmitReplies | src/pages/EmployeeDashboard.js:87-98 | a blank message or no open reply popup starts no request; otherwise the request is (the popup record's e-mail, "Feedback Reply", the typed message); starting it changes no state |
| EmployeeDashboard.Dashboard.ReplySent | src/pages/EmployeeDashboard.js:100-110 | only a response with a truthy `message` closes the reply popup open at that time and clears the text; a failed send or another response leaves the popup open and the text as typed; nothing else changes |
| EmployeeDashboard.Dashboard.HandleClosePopup | src/pages/EmployeeDashboard.js:112-117 | all three popup slots are cleared and the typed message is kept |
| EmployeeDashboard.Dashboard.HandleReply | src/pages/EmployeeDashboard.js:120-124 | the reply popup opens for the record, the details close and the message is cleared; the replies popup is untouched |
| EmployeeDashboard.Dashboard.HandleViewReply | src/pages/EmployeeDashboard.js:125-127 | the replies are requested by the clicked record's e-mail; starting the request changes no state |
| EmployeeDashboard.Dashboard.RepliesResponded | src/pages/EmployeeDashboard.js:128-136 | a successful response opens the replies popup with the record the request was started for and the fetched replies; any other end changes nothing |
| EmployeeDashboard.Dashboard.EditReplyMessage | src/pages/EmployeeDashboard.js:252 | typing replaces the reply buffer and changes nothing else |
| NavBar.Split | src/pages/NavBar.js:26 | an optional cross-check, not a model of a source line: `String.prototype.split` as a reference definition; a split always has at least one piece |
| NavBar.KeepTruthy | src/pages/NavBar.js:26 | `filter(Boolean)` on string arguments: never longer than the arguments and never keeps an empty string; KeepTruthySpec gives the exact counts |
| NavBar.Join | src/pages/NavBar.js:26 | `join`: JoinEmpty, JoinSnoc, SplitJoin and JoinSplit state what it produces |
| NavBar.ClassNames | src/pages/NavBar.js:25-27 | `classNames`; ClassNamesSnoc characterizes it argument by argument |
| NavBar.KeepTruthySpec | src/pages/NavBar.js:26 | `filter(Boolean)` keeps argument order and holds each non-empty argument exactly as often as it was passed, and no empty one |
| NavBar.KeepTruthyNone | src/pages/NavBar.js:26 | nothing is kept exactly when every argument is falsy |
| NavBar.KeepTruthySingle | src/pages/NavBar.js:26 | with exactly one truthy argument, only it is kept |
| NavBar.KeepTruthyAppend | src/pages/NavBar.js:26 | filtering two argument lists one after the other is filtering each and concatenating |
| NavBar.JoinEmpty | src/pages/NavBar.js:26 | a join is empty exactly when there are no parts or one empty part |
| NavBar.JoinSnoc | src/pages/NavBar.js:26 | joining one more part appends one separator and the part, whatever the parts contain |
| NavBar.ClassNamesEmpty | src/pages/NavBar.js:25-27 | `classNames` returns "" exactly when every argument is falsy |
| NavBar.ClassNamesSingle | src/pages/NavBar.js:25-27 | `classNames` with exactly one truthy argument returns it unchanged |
| NavBar.ClassNamesSnoc | src/pages/NavBar.js:25-27 | one more argument: a falsy one changes nothing; a truthy one is appended, after a single space unless no truthy argument came before |
| NavBar.ClassNamesPair | src/pages/NavBar.js:25-27 | two truthy arguments are joined by one space, even when they contain spaces themselves |
| NavBar.MenuEntryClasses | src/pages/NavBar.js:82 | a profile-menu entry gets "bg-gray-100" and a space before its own classes while active, and only its own classes otherwise |
| NavBar.SplitJoin | src/pages/NavBar.js:26 | an optional cross-check: splitting a join at the separator gives the parts back when no part contains it (the real class strings contain spaces, so JoinSnoc and ClassNamesSnoc are the characterization that applies to them) |
| NavBar.SplitPlain | src/pages/NavBar.js:26 | an optional cross-check: a string without the separator splits into itself |
| NavBar.SplitAfterPlain | src/pages/NavBar.js:26 | an optional cross-check: a separator-free piece followed by the separator splits off as the first piece |
| NavBar.JoinSplit | src/pages/NavBar.js:26 | joining the pieces of a split gives the string back, for every string, including ones with spaces |
| NavBar.Navigation | src/pages/NavBar.js:45 | the menu for the stored role; NavigationByRole states which menu each role gets |
| NavBar.NavigationByRole | src/pages/NavBar.js:45 | the admin menu is shown exactly for the role "admin", and the employee menu for every other role and no role; the menus have 5 and 1 entries with distinct names |
| NavBar.AfterLogout | src/pages/NavBar.js:39-42 | the storage left by logout; AfterLogoutSpec states what it holds |
| NavBar.AfterLogoutSpec | src/pages/NavBar.js:39-42 | logout removes exactly "authToken" and "role"; every other key keeps its value |
| NavBar.MenuAfterLogout | src/pages/NavBar.js:35-45 | once logged out, the role read from storage yields the employee menu |
| NavBar.Lookup | src/pages/NavBar.js:35 | `getItem`: a value exactly for a stored key, and then the stored value |
| NavBar.LocalStorage.constructor | src/pages/NavBar.js:35 | storage starts with the given items |
| NavBar.LocalStorage.GetItem | src/pages/NavBar.js:35 | reading a key returns its stored value or null |
| NavBar.LocalStorage.RemoveItem | src/pages/NavBar.js:40-41 | removing a key deletes that key and keeps every other item |
| NavBar.Navbar.constructor | src/pages/NavBar.js:31 | the role starts out null |
| NavBar.Navbar.Mount | src/pages/NavBar.js:33-37 | on mount the role becomes the stored "role" item |
| NavBar.Navbar.Menu | src/pages/NavBar.js:45 | the menu rendered for the role in state, which is Navigation of that role; NavigationByRole states which menu each role gets |
| NavBar.Navbar.HandleLogout | src/pages/NavBar.js:39-43 | storage loses exactly the token and the role, and the route is "/login" |

## Left out

- HTTP: the `axios` calls, URLs and headers are not modelled. Each request's result is a parameter of the method that handles it.
- Concurrency: every request the dashboard makes may answer in any order, and after the user has acted. The model handles the end of each request in its own method (`AssignedAppsResponded`, `FeedbacksResponded`, `ReplySent`, `RepliesResponded`), which can be called in any order and between any user actions. An answer that arrives after an unmount is not modelled.
- Effect scheduling: React runs the assigned-apps effect after a render in which `feedbacks` or `assignedApps` was replaced. The model runs it right after each replacement.
- Local storage: the dashboard reads the e-mail and token at every render; the model passes them to `Mount`. The navigation bar reads the role once, on mount (`Navbar.Mount`).
- Rendering: the JSX, CSS classes, `alert`, `console.error` and the Back button are not modelled. The `stopPropagation` on the row buttons is modelled only in that `HandleReply` does not also open the details popup.
- `toLocaleString` of reply timestamps is not modelled, because it depends on the locale and the clock. Reply timestamps are kept as text.
- Text.Lower: covers ASCII letters only, not full Unicode `toLowerCase`.
- Text.IsWhitespace: a fixed code point set, the ECMAScript WhiteSpace and LineTerminator characters.
- Text.StrLess: compares Dafny characters (code points). JavaScript compares UTF-16 code units, and the two orders differ only for characters outside the Basic Multilingual Plane.
- Field types: each field holds one fixed JSON type (text, or an integer for `rate_star`), so `<` is a total order. Mixed-type comparisons, `null`, missing fields and keys outside the 15 known ones are not modelled. So `value.toString()` never throws on null in the feedback table, and the dashboard's `value?.` never short-circuits.
- Payload shapes: in the feedback table, `response.data.data` is taken to be an array of records. In the dashboard, a truthy `assignedApps` is taken to be an array of names, and the replies payload is taken to be a list of replies.
- The algorithm inside `Array.prototype.sort` is not modelled; the model sorts by insertion. `Sorting.SortedByCharacterized` proves that every stable sort by the column comparator gives the same list, so the choice of algorithm changes nothing.
- Responses rendered from the reply list (its length check and display) are not modelled.
- Logging in, and setting the storage keys, happen outside these files.
- Other files: `src/pages/AssignedApps.js`, `src/pages/Profile.js`, `src/components/FeedbackForm.jsx`, `src/App.js` and `src/pages/AdminDashBoard.js` are not part of this model. They hold form and fetch wrappers, routing and composition.
