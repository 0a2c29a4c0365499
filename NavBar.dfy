/**
 * The navigation bar: the `classNames` helper, the menu chosen by the stored
 * role, and logout, which forgets the session keys in local storage.
 */
module NavBar {
  import opened Wrappers
  import opened Subsequences

  // ---------------------------------------------------------------------------
  // classNames
  // ---------------------------------------------------------------------------

  /** `classes.filter(Boolean)` on string arguments: a string is truthy when it is not empty. */
  function KeepTruthy(classes: seq<string>): (kept: seq<string>)
    ensures |kept| <= |classes|
    ensures "" !in kept
  {
    if classes == [] then []
    else if classes[0] != "" then [classes[0]] + KeepTruthy(classes[1..])
    else KeepTruthy(classes[1..])
  }

  /** `parts.join(sep)`: the parts with one separator between neighbours. */
  function Join(parts: seq<string>, sep: char): string {
    if |parts| == 0 then ""
    else if |parts| == 1 then parts[0]
    else parts[0] + [sep] + Join(parts[1..], sep)
  }

  /** `classNames(...classes)`. */
  function ClassNames(classes: seq<string>): string {
    Join(KeepTruthy(classes), ' ')
  }

  /** `s.split(sep)`: the pieces between separators, including empty ones. */
  function Split(s: string, sep: char): (r: seq<string>)
    ensures |r| > 0
    decreases |s|
  {
    if |s| == 0 then [""]
    else if s[0] == sep then [""] + Split(s[1..], sep)
    else
      var rest := Split(s[1..], sep);
      [[s[0]] + rest[0]] + rest[1..]
  }

  /** The truthy arguments, in argument order, and nothing else. */
  lemma {:induction false} KeepTruthySpec(classes: seq<string>)
    ensures IsSubsequence(KeepTruthy(classes), classes)
    ensures forall c :: multiset(KeepTruthy(classes))[c] == if c != "" then multiset(classes)[c] else 0
    ensures forall c :: c in KeepTruthy(classes) <==> c in classes && c != ""
    decreases |classes|
  {
    if classes != [] {
      KeepTruthySpec(classes[1..]);
      if classes[0] == "" {
        IsSubsequenceOfCons(KeepTruthy(classes[1..]), classes[0], classes[1..]);
      }
      assert classes == [classes[0]] + classes[1..];
    }
  }

  /** `filter(Boolean)` of two argument lists one after the other. */
  lemma {:induction false} KeepTruthyAppend(a: seq<string>, b: seq<string>)
    ensures KeepTruthy(a + b) == KeepTruthy(a) + KeepTruthy(b)
    decreases |a|
  {
    if a == [] {
      assert a + b == b;
    } else {
      assert (a + b)[1..] == a[1..] + b;
      KeepTruthyAppend(a[1..], b);
    }
  }

  /** Joining one more part puts one separator and the part behind the join. */
  lemma {:induction false} JoinSnoc(parts: seq<string>, p: string, sep: char)
    requires parts != []
    ensures Join(parts + [p], sep) == Join(parts, sep) + [sep] + p
    decreases |parts|
  {
    if |parts| > 1 {
      assert (parts + [p])[1..] == parts[1..] + [p];
      JoinSnoc(parts[1..], p, sep);
    }
  }

  /**
   * `classNames` with one more argument: a falsy one changes nothing, a truthy
   * one is appended, after a space unless nothing truthy came before it.
   */
  lemma ClassNamesSnoc(classes: seq<string>, c: string)
    ensures ClassNames(classes + [c]) ==
      if c == "" then ClassNames(classes)
      else if KeepTruthy(classes) == [] then c
      else ClassNames(classes) + " " + c
  {
    KeepTruthyAppend(classes, [c]);
    assert KeepTruthy([c]) == (if c == "" then [] else [c]);
    if c == "" {
      assert KeepTruthy(classes) + [] == KeepTruthy(classes);
    } else if KeepTruthy(classes) != [] {
      JoinSnoc(KeepTruthy(classes), c, ' ');
    }
  }

  /** Two truthy arguments are joined by a single space, whatever they contain. */
  lemma ClassNamesPair(a: string, b: string)
    requires a != "" && b != ""
    ensures ClassNames([a, b]) == a + " " + b
  {
    ClassNamesSnoc([a], b);
    assert [a] + [b] == [a, b];
  }

  /**
   * The class list of a profile-menu entry: the highlight class before the
   * entry's own classes while the entry is active, the entry's classes alone
   * otherwise.
   */
  lemma MenuEntryClasses(active: bool, entry: string)
    requires entry != ""
    ensures ClassNames([if active then "bg-gray-100" else "", entry]) ==
      if active then "bg-gray-100 " + entry else entry
  {
    if active {
      ClassNamesPair("bg-gray-100", entry);
    } else {
      ClassNamesSnoc([""], entry);
      assert [""] + [entry] == ["", entry];
    }
  }

  /** Only falsy arguments leave nothing. */
  lemma {:induction false} KeepTruthyNone(classes: seq<string>)
    ensures KeepTruthy(classes) == [] <==> forall i :: 0 <= i < |classes| ==> classes[i] == ""
    decreases |classes|
  {
    if classes != [] {
      KeepTruthyNone(classes[1..]);
      if classes[0] == "" {
        forall i | 1 <= i < |classes|
          ensures classes[i] == "" <==> classes[1..][i - 1] == ""
        {
        }
      }
    }
  }

  /** A join is empty exactly when it has no parts, or one empty part. */
  lemma JoinEmpty(parts: seq<string>, sep: char)
    ensures Join(parts, sep) == "" <==> parts == [] || parts == [""]
  {
    if |parts| >= 2 {
      assert |Join(parts, sep)| >= 1;
    }
  }

  /** `classNames` is empty exactly when every argument is falsy. */
  lemma ClassNamesEmpty(classes: seq<string>)
    ensures ClassNames(classes) == "" <==> forall i :: 0 <= i < |classes| ==> classes[i] == ""
  {
    KeepTruthyNone(classes);
    KeepTruthySpec(classes);
    JoinEmpty(KeepTruthy(classes), ' ');
    assert "" !in KeepTruthy(classes);
  }

  /** With exactly one truthy argument, `classNames` returns it unchanged. */
  lemma {:induction false} ClassNamesSingle(classes: seq<string>, k: nat)
    requires k < |classes| && classes[k] != ""
    requires forall i :: 0 <= i < |classes| && i != k ==> classes[i] == ""
    ensures ClassNames(classes) == classes[k]
  {
    KeepTruthySingle(classes, k);
  }

  lemma {:induction false} KeepTruthySingle(classes: seq<string>, k: nat)
    requires k < |classes| && classes[k] != ""
    requires forall i :: 0 <= i < |classes| && i != k ==> classes[i] == ""
    ensures KeepTruthy(classes) == [classes[k]]
    decreases |classes|
  {
    var rest := classes[1..];
    if k == 0 {
      KeepTruthyNone(rest);
    } else {
      KeepTruthySingle(rest, k - 1);
    }
  }

  /** Splitting a join gives the parts back when no part holds the separator. */
  lemma {:induction false} SplitJoin(parts: seq<string>, sep: char)
    requires |parts| > 0
    requires forall i :: 0 <= i < |parts| ==> sep !in parts[i]
    ensures Split(Join(parts, sep), sep) == parts
    decreases |parts|
  {
    if |parts| == 1 {
      SplitPlain(parts[0], sep);
    } else {
      SplitJoin(parts[1..], sep);
      SplitAfterPlain(parts[0], Join(parts[1..], sep), sep);
      assert parts == [parts[0]] + parts[1..];
    }
  }

  /** A string without the separator is a single piece. */
  lemma {:induction false} SplitPlain(s: string, sep: char)
    requires sep !in s
    ensures Split(s, sep) == [s]
    decreases |s|
  {
    if |s| > 0 {
      assert s[0] != sep;
      SplitPlain(s[1..], sep);
      assert s == [s[0]] + s[1..];
    }
  }

  /** A separator-free piece, the separator, then the rest: the piece comes first. */
  lemma {:induction false} SplitAfterPlain(p: string, rest: string, sep: char)
    requires sep !in p
    ensures Split(p + [sep] + rest, sep) == [p] + Split(rest, sep)
    decreases |p|
  {
    if |p| == 0 {
      assert p + [sep] + rest == [sep] + rest;
      assert ([sep] + rest)[1..] == rest;
    } else {
      assert p[0] != sep;
      SplitAfterPlain(p[1..], rest, sep);
      assert (p + [sep] + rest)[1..] == p[1..] + [sep] + rest;
      assert p == [p[0]] + p[1..];
    }
  }

  /** Joining the pieces of a split gives the string back. */
  lemma {:induction false} JoinSplit(s: string, sep: char)
    ensures Join(Split(s, sep), sep) == s
    decreases |s|
  {
    if |s| > 0 {
      JoinSplit(s[1..], sep);
      var rest := Split(s[1..], sep);
      if s[0] == sep {
        assert s == [sep] + s[1..];
      } else {
        var r := Split(s, sep);
        assert r[1..] == rest[1..];
        if |rest| > 1 {
          assert rest == [rest[0]] + rest[1..];
        }
        assert s == [s[0]] + s[1..];
      }
    }
  }

  // ---------------------------------------------------------------------------
  // Navigation
  // ---------------------------------------------------------------------------

  datatype NavItem = NavItem(name: string, href: string)

  const AdminNavigation: seq<NavItem> := [
    NavItem("Admin Dashboard", "/dashborad"),
    NavItem("Register Admin", "/register_admin"),
    NavItem("Register Employee", "/register_employee"),
    NavItem("Employee & Admin", "/show_employees"),
    NavItem("Assigned Apps", "/assigned_apps")
  ]

  const EmployeeNavigation: seq<NavItem> := [
    NavItem("Employee Dashboard", "/employee_dashboard")
  ]

  /** No two entries of a menu share a name (the name is the React key). */
  predicate DistinctNames(nav: seq<NavItem>) {
    forall i, j :: 0 <= i < j < |nav| ==> nav[i].name != nav[j].name
  }

  /** The menu for the stored role: the admin menu for "admin" only. */
  function Navigation(role: Option<string>): seq<NavItem> {
    if role == Some("admin") then AdminNavigation else EmployeeNavigation
  }

  /** Admins see the five admin entries, everyone else (no role included) the employee entry. */
  lemma NavigationByRole(role: Option<string>)
    ensures Navigation(role) == AdminNavigation <==> role == Some("admin")
    ensures Navigation(role) == EmployeeNavigation <==> role != Some("admin")
    ensures |Navigation(role)| == (if role == Some("admin") then 5 else 1)
    ensures DistinctNames(Navigation(role))
  {
    assert AdminNavigation != EmployeeNavigation by {
      assert |AdminNavigation| != |EmployeeNavigation|;
    }
  }

  // ---------------------------------------------------------------------------
  // Local storage and logout
  // ---------------------------------------------------------------------------

  /** The storage after logout: the session token and the role are gone. */
  function AfterLogout(items: map<string, string>): map<string, string> {
    items - {"authToken", "role"}
  }

  /** Logout removes exactly the token and the role; every other key keeps its value. */
  lemma AfterLogoutSpec(items: map<string, string>)
    ensures "authToken" !in AfterLogout(items) && "role" !in AfterLogout(items)
    ensures forall k :: k != "authToken" && k != "role" ==>
      (k in AfterLogout(items) <==> k in items) &&
      (k in items ==> AfterLogout(items)[k] == items[k])
  {
  }

  /** After logout the next menu read from storage is the employee menu. */
  lemma MenuAfterLogout(items: map<string, string>)
    ensures Navigation(Lookup(AfterLogout(items), "role")) == EmployeeNavigation
  {
    assert "role" !in AfterLogout(items);
    NavigationByRole(None);
  }

  /** `localStorage.getItem(key)`: the stored value, or null. */
  function Lookup(items: map<string, string>, key: string): (v: Option<string>)
    ensures v.Some? <==> key in items
    ensures v.Some? ==> v.value == items[key]
  {
    if key in items then Some(items[key]) else None
  }

  /** The browser's `localStorage`, as a map from keys to values. */
  class LocalStorage {
    var items: map<string, string>

    constructor(initial: map<string, string>)
      ensures items == initial
    {
      items := initial;
    }

    method GetItem(key: string) returns (v: Option<string>)
      ensures v == Lookup(items, key)
    {
      if key in items {
        v := Some(items[key]);
      } else {
        v := None;
      }
    }

    method RemoveItem(key: string)
      modifies this
      ensures items == old(items) - {key}
    {
      items := items - {key};
    }
  }

  /** The navigation bar component; `userRole` is read from storage when it mounts. */
  class Navbar {
    var userRole: Option<string>

    constructor()
      ensures userRole == None
    {
      userRole := None;
    }

    method Mount(storage: LocalStorage)
      modifies this
      ensures userRole == Lookup(storage.items, "role")
    {
      userRole := storage.GetItem("role");
    }

    /** The menu rendered for the current role. */
    function Menu(): seq<NavItem>
      reads this
    {
      Navigation(userRole)
    }

    /** Remove the session keys and go to the login page. */
    method HandleLogout(storage: LocalStorage) returns (route: string)
      modifies storage
      ensures storage.items == AfterLogout(old(storage.items))
      ensures route == "/login"
    {
      storage.RemoveItem("authToken");
      storage.RemoveItem("role");
      assert storage.items == old(storage.items) - {"authToken"} - {"role"};
      route := "/login";
    }
  }
}
