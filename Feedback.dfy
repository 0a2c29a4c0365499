/**
 * The feedback record both table screens display, the JavaScript view of its
 * field values (`toString`, `<`), and the order-preserving `Array.prototype.filter`
 * over records that their searches and the assigned-apps view are built from.
 */
module Feedback {
  import opened Text
  import opened Subsequences

  /** One feedback entry as the backend's JSON object carries it. */
  datatype FeedbackRecord = FeedbackRecord(
    id: string,           // `_id`
    appName: string,      // `app_name`
    appVersion: string,   // `app_version`
    date: string,
    description: string,
    deviceModel: string,  // `device_model`
    deviceToken: string,  // `device_token`
    email: string,
    fromScreen: string,   // `from_screen`
    likeDislike: string,  // `like_dislike`
    osVersion: string,    // `os_version`
    rateStar: int,        // `rate_star`
    report: string,
    faq: string,
    timestamp: string)

  /** The keys of a record, in the order `Object.values` lists them. */
  datatype Field =
    | Id | AppName | AppVersion | Date | Description | DeviceModel | DeviceToken
    | Email | FromScreen | LikeDislike | OsVersion | RateStar | Report | Faq | Timestamp

  const AllFields: seq<Field> :=
    [Id, AppName, AppVersion, Date, Description, DeviceModel, DeviceToken,
     Email, FromScreen, LikeDislike, OsVersion, RateStar, Report, Faq, Timestamp]

  /** A primitive JSON value held in a field: text, or the numeric star rating. */
  datatype Value = Str(text: string) | Num(number: int)

  /** `record[field]`; only `rate_star` is numeric. */
  function FieldValue(f: Field, r: FeedbackRecord): (v: Value)
    ensures v.Num? <==> f == RateStar
  {
    if f == RateStar then Num(r.rateStar) else Str(FieldText(f, r))
  }

  /** The text held by one of the string-valued fields. */
  function FieldText(f: Field, r: FeedbackRecord): string
    requires f != RateStar
  {
    match f
    case Id => r.id
    case AppName => r.appName
    case AppVersion => r.appVersion
    case Date => r.date
    case Description => r.description
    case DeviceModel => r.deviceModel
    case DeviceToken => r.deviceToken
    case Email => r.email
    case FromScreen => r.fromScreen
    case LikeDislike => r.likeDislike
    case OsVersion => r.osVersion
    case Report => r.report
    case Faq => r.faq
    case Timestamp => r.timestamp
  }

  /** `value.toString()`: text as it is, a number in decimal. */
  function ToString(v: Value): string {
    match v
    case Str(t) => t
    case Num(n) => IntToString(n)
  }

  /**
   * JavaScript `a < b`: code-point order on strings, numeric order on numbers.
   * A field always holds values of one type, so mixed comparisons never arise.
   */
  predicate Less(a: Value, b: Value) {
    if a.Str? && b.Str? then StrLess(a.text, b.text)
    else if a.Num? && b.Num? then a.number < b.number
    else false
  }

  lemma LessIrreflexive(a: Value)
    ensures !Less(a, a)
  {
    if a.Str? {
      StrLessIrreflexive(a.text);
    }
  }

  lemma LessAsymmetric(a: Value, b: Value)
    ensures Less(a, b) ==> !Less(b, a)
  {
    if a.Str? && b.Str? {
      StrLessAsymmetric(a.text, b.text);
    }
  }

  lemma LessTransitive(a: Value, b: Value, c: Value)
    ensures Less(a, b) && Less(b, c) ==> Less(a, c)
  {
    if a.Str? && b.Str? && c.Str? {
      StrLessTransitive(a.text, b.text, c.text);
    }
  }

  /** Two distinct values of the same type are ordered one way or the other. */
  lemma LessTotal(a: Value, b: Value)
    requires a.Num? == b.Num?
    ensures a != b ==> Less(a, b) || Less(b, a)
  {
    if a.Str? {
      StrLessTotal(a.text, b.text);
    }
  }

  /**
   * A record matches a query when, for at least one of its fields, the field's
   * value rendered as text and lower-cased includes the query.
   */
  predicate Matches(r: FeedbackRecord, query: string) {
    exists f | f in AllFields :: Contains(Lower(ToString(FieldValue(f, r))), query)
  }

  /** The empty query is included in every field, so every record matches it. */
  lemma MatchesEmptyQuery(r: FeedbackRecord)
    ensures Matches(r, "")
  {
    ContainsEmpty(Lower(ToString(FieldValue(Id, r))));
  }

  // ---------------------------------------------------------------------------
  // Filtering
  // ---------------------------------------------------------------------------

  /** The conditions the screens filter records by. */
  datatype Criterion =
    | MatchesQuery(query: string)          // some field contains the lower-cased query
    | AppAssigned(apps: seq<string>)       // `apps.includes(record.app_name)`
    | HasValue(field: Field, value: Value) // the field holds this value; used only to state sort stability
    | Both(first: Criterion, second: Criterion)

  predicate Holds(c: Criterion, r: FeedbackRecord) {
    match c
    case MatchesQuery(q) => Matches(r, q)
    case AppAssigned(apps) => r.appName in apps
    case HasValue(f, v) => FieldValue(f, r) == v
    case Both(c1, c2) => Holds(c1, r) && Holds(c2, r)
  }

  /**
   * `s.filter(c)`: the records of `s` that satisfy `c`, each as often as in `s`,
   * in their order in `s`.
   */
  function Filter(s: seq<FeedbackRecord>, c: Criterion): (r: seq<FeedbackRecord>)
    ensures |r| <= |s|
  {
    if s == [] then []
    else if Holds(c, s[0]) then [s[0]] + Filter(s[1..], c)
    else Filter(s[1..], c)
  }

  /**
   * The filtered list holds each record satisfying `c` exactly as often as `s`
   * does, and no other record.
   */
  lemma {:induction false} FilterCounts(s: seq<FeedbackRecord>, c: Criterion)
    ensures forall x :: multiset(Filter(s, c))[x] == if Holds(c, x) then multiset(s)[x] else 0
    decreases |s|
  {
    if s != [] {
      FilterCounts(s[1..], c);
      assert s == [s[0]] + s[1..];
    }
  }

  lemma FilterMembers(s: seq<FeedbackRecord>, c: Criterion)
    ensures forall x :: x in Filter(s, c) <==> x in s && Holds(c, x)
  {
    FilterCounts(s, c);
    forall x
      ensures x in Filter(s, c) <==> x in s && Holds(c, x)
    {
      assert x in Filter(s, c) <==> x in multiset(Filter(s, c));
      assert x in s <==> x in multiset(s);
    }
  }

  /** The filtered list takes no record more often than `s` holds it. */
  lemma FilterSubmultiset(s: seq<FeedbackRecord>, c: Criterion)
    ensures multiset(Filter(s, c)) <= multiset(s)
  {
    FilterCounts(s, c);
  }

  lemma {:induction false} FilterIsSubsequence(s: seq<FeedbackRecord>, c: Criterion)
    ensures IsSubsequence(Filter(s, c), s)
    decreases |s|
  {
    if s != [] {
      FilterIsSubsequence(s[1..], c);
      if !Holds(c, s[0]) {
        IsSubsequenceOfCons(Filter(s[1..], c), s[0], s[1..]);
        assert [s[0]] + s[1..] == s;
      }
    }
  }

  lemma {:induction false} FilterAppend(s: seq<FeedbackRecord>, t: seq<FeedbackRecord>, c: Criterion)
    ensures Filter(s + t, c) == Filter(s, c) + Filter(t, c)
    decreases |s|
  {
    if s == [] {
      assert s + t == t;
    } else {
      assert (s + t)[1..] == s[1..] + t;
      FilterAppend(s[1..], t, c);
    }
  }

  /** Filtering by a condition every element satisfies changes nothing. */
  lemma {:induction false} FilterKeepsAll(s: seq<FeedbackRecord>, c: Criterion)
    requires forall x :: x in s ==> Holds(c, x)
    ensures Filter(s, c) == s
    decreases |s|
  {
    if s != [] {
      assert s[0] in s;
      FilterKeepsAll(s[1..], c);
      assert [s[0]] + s[1..] == s;
    }
  }

  /** Filtering by a condition no element satisfies leaves nothing. */
  lemma {:induction false} FilterKeepsNone(s: seq<FeedbackRecord>, c: Criterion)
    requires forall x :: x in s ==> !Holds(c, x)
    ensures Filter(s, c) == []
    decreases |s|
  {
    if s != [] {
      assert s[0] in s;
      FilterKeepsNone(s[1..], c);
    }
  }

  /** Filtering a filtered list by the same condition changes nothing. */
  lemma FilterIdempotent(s: seq<FeedbackRecord>, c: Criterion)
    ensures Filter(Filter(s, c), c) == Filter(s, c)
  {
    FilterMembers(s, c);
    FilterKeepsAll(Filter(s, c), c);
  }

  /** Two filters in a row are one filter by the conjunction. */
  lemma {:induction false} FilterBoth(s: seq<FeedbackRecord>, c1: Criterion, c2: Criterion)
    ensures Filter(Filter(s, c1), c2) == Filter(s, Both(c1, c2))
    decreases |s|
  {
    if s != [] {
      FilterBoth(s[1..], c1, c2);
      if Holds(c1, s[0]) {
        assert Filter(s, c1) == [s[0]] + Filter(s[1..], c1);
        assert Filter(s, c1)[1..] == Filter(s[1..], c1);
      }
    }
  }
}
