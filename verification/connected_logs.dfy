/** The log of the connected applications: filtered and sorted, then paged or
    exported. */
module ConnectedLogs {
  import opened Options
  import opened CodeUnits
  import opened StableSort
  import opened LogPages
  import JsonText
  import JsonReader

  /** The fields of a log record that filtering and sorting look at. */
  datatype LogRecord = LogRecord(
    workspaceId: Text,
    appId: Text,
    category: Text,
    createdAt: Text,
    eventType: Text,
    actorEmail: Text,
    subject: Text,
    clientId: Text,
    statusCode: Option<nat>)

  datatype SortKey = CreatedAt | Category | EventType | StatusCode | ActorEmail

  /** Empty texts filter nothing; an unknown sort key is `createdAt`. */
  datatype Filters = Filters(
    workspaceId: Text,
    appId: Text,
    category: Text,
    search: Text,
    sort: Option<SortKey>,
    ascending: bool)

  predicate Includes(text: Text, part: Text) {
    exists i :: 0 <= i <= |text| - |part| && IsAt(text, part, i)
  }

  predicate IsAt(text: Text, part: Text, i: int) {
    0 <= i <= |text| - |part| && text[i..i + |part|] == part
  }

  /** What a search looks through, the fields joined by spaces. */
  function Searched(r: LogRecord): Text {
    var code := if r.statusCode.Some? then JsonText.NatText(r.statusCode.value) else [];
    r.eventType + [0x20] + r.actorEmail + [0x20] + r.subject + [0x20] + r.clientId + [0x20] + code
  }

  predicate Matches(r: LogRecord, f: Filters, lower: Text -> Text) {
    && (f.workspaceId == [] || r.workspaceId == f.workspaceId)
    && (f.appId == [] || r.appId == f.appId)
    && (f.category == [] || r.category == f.category)
    && (lower(f.search) == [] || Includes(lower(Searched(r)), lower(f.search)))
  }

  function Matching(records: seq<LogRecord>, f: Filters, lower: Text -> Text): (r: seq<LogRecord>)
    ensures forall x :: x in r <==> x in records && Matches(x, f, lower)
  {
    if records == [] then []
    else
      assert records == [records[0]] + records[1..];
      (if Matches(records[0], f, lower) then [records[0]] else []) + Matching(records[1..], f, lower)
  }

  function KeyText(key: SortKey, r: LogRecord): Text {
    match key
    case CreatedAt => r.createdAt
    case Category => r.category
    case EventType => r.eventType
    case ActorEmail => r.actorEmail
    case StatusCode => []
  }

  /** Ascending: numbers by value, an absent one being 0, texts by code unit. */
  predicate AtMost(key: SortKey, a: LogRecord, b: LogRecord) {
    if key.StatusCode? then
      (if a.statusCode.Some? then a.statusCode.value else 0) <= (if b.statusCode.Some? then b.statusCode.value else 0)
    else !Less(KeyText(key, b), KeyText(key, a))
  }

  function KeyOf(f: Filters): SortKey { if f.sort.Some? then f.sort.value else CreatedAt }

  /** The order that is asked for. */
  function Order(f: Filters): (LogRecord, LogRecord) -> bool {
    (a, b) => if f.ascending then AtMost(KeyOf(f), a, b) else AtMost(KeyOf(f), b, a)
  }

  lemma AtMostTransitive(key: SortKey, a: LogRecord, b: LogRecord, c: LogRecord)
    requires AtMost(key, a, b) && AtMost(key, b, c)
    ensures AtMost(key, a, c)
  {
    if !key.StatusCode? {
      var x, y, z := KeyText(key, a), KeyText(key, b), KeyText(key, c);
      hide Less;
      if Less(z, x) {
        LessTotal(x, y);
        LessTotal(y, z);
        if Less(x, y) {
          LessTransitive(z, x, y);
        } else if Less(y, z) {
          LessTransitive(y, z, x);
        }
        assert false;
      }
    }
  }

  lemma OrderIsTotal(f: Filters)
    ensures TotalPreorder(Order(f))
  {
    forall a: LogRecord, b: LogRecord
      ensures AtMost(KeyOf(f), a, b) || AtMost(KeyOf(f), b, a)
    {
      var x, y := KeyText(KeyOf(f), a), KeyText(KeyOf(f), b);
      if Less(x, y) && Less(y, x) {
        LessTransitive(x, y, x);
        LessIrreflexive(x);
      }
    }
    forall a, b, c | AtMost(KeyOf(f), a, b) && AtMost(KeyOf(f), b, c)
      ensures AtMost(KeyOf(f), a, c)
    {
      AtMostTransitive(KeyOf(f), a, b, c);
    }
    hide AtMost;
  }

  function Selected(records: seq<LogRecord>, f: Filters, lower: Text -> Text): seq<LogRecord> {
    Sort(Matching(records, f, lower), Order(f))
  }

  /** Words with a space between any two. */
  function Spaced(words: seq<Text>): Text {
    if words == [] then [] else if |words| == 1 then words[0] else words[0] + [' ' as int] + Spaced(words[1..])
  }

  /** The search goes through these five fields, the status code in decimal. */
  lemma SearchedExact(r: LogRecord)
    ensures var code := if r.statusCode.Some? then JsonText.NatText(r.statusCode.value) else [];
            && Searched(r) == Spaced([r.eventType, r.actorEmail, r.subject, r.clientId, code])
            && (r.statusCode.Some? ==> JsonReader.DecimalValue(code) == r.statusCode.value)
  {
    var code := if r.statusCode.Some? then JsonText.NatText(r.statusCode.value) else [];
    if r.statusCode.Some? {
      JsonReader.NatTextExact(r.statusCode.value);
    }
    hide JsonText.NatText, JsonReader.DecimalValue;
    SpacedFive(r.eventType, r.actorEmail, r.subject, r.clientId, code);
  }

  lemma SpacedFive(a: Text, b: Text, c: Text, d: Text, e: Text)
    ensures Spaced([a, b, c, d, e]) == a + [0x20] + b + [0x20] + c + [0x20] + d + [0x20] + e
  {
    SpacedMore(a, [b, c, d, e]);
    SpacedMore(b, [c, d, e]);
    SpacedMore(c, [d, e]);
    SpacedMore(d, [e]);
    hide Spaced;
    assert [a] + [b, c, d, e] == [a, b, c, d, e] && [b] + [c, d, e] == [b, c, d, e];
    assert [c] + [d, e] == [c, d, e] && [d] + [e] == [d, e];
  }

  lemma SpacedMore(first: Text, rest: seq<Text>)
    requires rest != []
    ensures Spaced([first] + rest) == first + [0x20] + Spaced(rest)
    ensures |rest| == 1 ==> Spaced(rest) == rest[0]
  {
    assert ([first] + rest)[1..] == rest;
  }

  /** A record is shown exactly if it agrees with every filter that is set and the
      searched text, in small letters, has the search in it. */
  ghost predicate Shown(r: LogRecord, f: Filters, lower: Text -> Text) {
    && (f.workspaceId != [] ==> r.workspaceId == f.workspaceId)
    && (f.appId != [] ==> r.appId == f.appId)
    && (f.category != [] ==> r.category == f.category)
    && exists before, after :: lower(Searched(r)) == before + lower(f.search) + after
  }

  lemma MatchesExact(r: LogRecord, f: Filters, lower: Text -> Text)
    ensures Matches(r, f, lower) <==> Shown(r, f, lower)
  {
    hide Searched;
    var text, part := lower(Searched(r)), lower(f.search);
    if part == [] {
      assert text == [] + part + text;
    }
    if before, after :| text == before + part + after {
      assert IsAt(text, part, |before|);
      assert Includes(text, part);
    }
    if Includes(text, part) {
      var i :| 0 <= i <= |text| - |part| && IsAt(text, part, i);
      assert text == text[..i] + text[i..i + |part|] + text[i + |part|..];
    }
  }

  /** Filtering a log is filtering its parts, one record at a time. */
  lemma {:induction false} MatchingExact(a: seq<LogRecord>, b: seq<LogRecord>, f: Filters, lower: Text -> Text)
    ensures Matching(a + b, f, lower) == Matching(a, f, lower) + Matching(b, f, lower)
    ensures |a| == 1 ==> Matching(a, f, lower) == if Shown(a[0], f, lower) then a else []
  {
    hide *;
    if a == [] {
      MatchingNone(f, lower);
      assert a + b == b;
      assert Matching([], f, lower) + Matching(b, f, lower) == Matching(b, f, lower);
    } else {
      assert a == [a[0]] + a[1..] && a + b == [a[0]] + (a[1..] + b);
      MatchingExact(a[1..], b, f, lower);
      MatchingFirst(a[0], a[1..], f, lower);
      MatchingFirst(a[0], a[1..] + b, f, lower);
      MatchingNone(f, lower);
    }
  }

  lemma MatchingNone(f: Filters, lower: Text -> Text)
    ensures Matching([], f, lower) == []
  {
  }

  lemma MatchingFirst(r: LogRecord, rest: seq<LogRecord>, f: Filters, lower: Text -> Text)
    ensures Matching([r] + rest, f, lower) == (if Shown(r, f, lower) then [r] else []) + Matching(rest, f, lower)
  {
    hide Matches, Shown;
    MatchesExact(r, f, lower);
    assert ([r] + rest)[1..] == rest;
  }

  function Code(r: LogRecord): nat { if r.statusCode.Some? then r.statusCode.value else 0 }

  /** a may come before b: by the chosen field, in the chosen direction. */
  ghost predicate InOrder(f: Filters, a: LogRecord, b: LogRecord) {
    var x, y := if f.ascending then a else b, if f.ascending then b else a;
    match f.sort
    case Some(StatusCode) => Code(x) <= Code(y)
    case Some(Category) => x.category == y.category || Less(x.category, y.category)
    case Some(EventType) => x.eventType == y.eventType || Less(x.eventType, y.eventType)
    case Some(ActorEmail) => x.actorEmail == y.actorEmail || Less(x.actorEmail, y.actorEmail)
    case _ => x.createdAt == y.createdAt || Less(x.createdAt, y.createdAt)
  }

  lemma OrderExact(f: Filters, a: LogRecord, b: LogRecord)
    ensures Order(f)(a, b) <==> InOrder(f, a, b)
  {
    var x, y := if f.ascending then a else b, if f.ascending then b else a;
    var key := KeyOf(f);
    NotAbove(KeyText(key, x), KeyText(key, y));
    hide Less;
  }

  lemma NotAbove(x: Text, y: Text)
    ensures !Less(y, x) <==> x == y || Less(x, y)
  {
    LessTotal(x, y);
    LessIrreflexive(x);
    if Less(x, y) && Less(y, x) {
      LessTransitive(x, y, x);
    }
  }

  /** The paged list holds exactly the records to be shown, as often as the log does,
      in the order asked for, and equal ones in the order of the log. */
  lemma SelectedExact(records: seq<LogRecord>, f: Filters, lower: Text -> Text)
    ensures var list, matching := Selected(records, f, lower), Matching(records, f, lower);
            && multiset(list) == multiset(matching)
            && (forall x :: x in list <==> x in records && Shown(x, f, lower))
            && (forall i, j :: 0 <= i < j < |list| ==> InOrder(f, list[i], list[j]))
            && forall x :: Alike(list, x, Order(f)) == Alike(matching, x, Order(f))
  {
    hide Matches, Shown, AtMost, Sort, Order, InOrder;
    forall x
      ensures Matches(x, f, lower) <==> Shown(x, f, lower)
    {
      MatchesExact(x, f, lower);
    }
    forall a, b
      ensures Order(f)(a, b) <==> InOrder(f, a, b)
    {
      OrderExact(f, a, b);
    }
    OrderIsTotal(f);
    SortIsStable(Matching(records, f, lower), Order(f));
    SortMembers(Matching(records, f, lower), Order(f));
    var list := Selected(records, f, lower);
    assert forall i, j :: 0 <= i < j < |list| ==> Order(f)(list[i], list[j]);
  }

  function ListConnectedAppLogs(records: seq<LogRecord>, f: Filters, lower: Text -> Text,
                                requestedPage: Option<int>, requestedSize: Option<int>): Page<LogRecord>
  {
    ListLogs(Selected(records, f, lower), requestedPage, requestedSize)
  }

  /** The rows of the export, listed page by page. */
  method ExportConnectedAppLogs(records: seq<LogRecord>, f: Filters, lower: Text -> Text)
      returns (allRows: seq<LogRecord>)
    ensures allRows == Selected(records, f, lower)
  {
    hide Selected, ListLogs;
    var listing := (n: int) => ListConnectedAppLogs(records, f, lower, Some(n), Some(PAGE_SIZE_MAX));
    allRows := ExportRows(listing, Selected(records, f, lower));
  }
}
