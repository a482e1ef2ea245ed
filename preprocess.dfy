/**
 * `filter_java_vulnerabilities`: one pass over a feed's `CVE_Items` that keeps the
 * descriptions of items published inside the 2023–2024 window which mention Java
 * but not JavaScript, one normalised record per such description.
 *
 * The feed is given already decoded. Each field the filter reads is modelled with the
 * shapes that lead to different behaviour: present or absent, a list or not.
 */
module Preprocess {
  import opened Wrappers
  import opened Json
  import opened Text
  import Timestamp

  /** A field that should hold a list: absent (read as `[]`), present but not a list, or a list. */
  datatype ListField<T> = Missing | NotAList | AList(elems: seq<T>)

  /** One entry of `cve.description.description_data`; `value` is `None` when the key is absent. */
  datatype Description = Description(value: Option<string>)

  /**
   * One element of `CVE_Items`.
   *  - `id`: `cve.CVE_data_meta.ID`, `Null` when absent;
   *  - `publishedDate`: `None` when absent or null;
   *  - `descriptions`: `cve.description.description_data` (`Missing` when any level is absent);
   *  - `versionData`: `configurations.CVE_version_data`, `None` when absent.
   */
  datatype CveItem = CveItem(
    id: Json,
    publishedDate: Option<string>,
    descriptions: ListField<Description>,
    versionData: Option<Json>)

  /** The decoded feed document; only `CVE_Items` is read. */
  datatype Feed = Feed(cveItems: ListField<CveItem>)

  /** The normalised record the filter emits (the dict built at the `append`). */
  datatype JavaVuln = JavaVuln(
    cveId: Json,
    packageName: string,
    description: string,
    vulnerableVersions: Json,
    publishedDate: string,
    createdDate: string,
    createdBy: string)

  // ---------------------------------------------------------------- the window

  const WindowStartText: string := "2023-01-01T00:00Z"
  const WindowEndText: string := "2024-12-31T23:59Z"
  const WindowStartStamp: Timestamp.Stamp := Timestamp.Stamp(2023, 1, 1, 0, 0, 0)
  const WindowEndStamp: Timestamp.Stamp := Timestamp.Stamp(2024, 12, 31, 23, 59, 0)

  /** The years of the window, written with four digits. */
  lemma YearTexts()
    ensures Timestamp.PadDigits(2023, 4) == "2023" && Timestamp.PadDigits(2024, 4) == "2024"
  {
    assert Timestamp.PadDigits(2, 1) == "2";
    assert Timestamp.PadDigits(20, 2) == "20";
    assert Timestamp.PadDigits(202, 3) == "202";
  }

  lemma StartText()
    ensures Timestamp.Format(WindowStartStamp) == WindowStartText
  {
    YearTexts();
    assert Timestamp.Pad2(1) == "01" && Timestamp.Pad2(0) == "00";
    assert Timestamp.FormatZone(0) == "Z";
  }

  lemma EndText()
    ensures Timestamp.Format(WindowEndStamp) == WindowEndText
  {
    YearTexts();
    assert Timestamp.Pad2(12) == "12" && Timestamp.Pad2(31) == "31";
    assert Timestamp.Pad2(23) == "23" && Timestamp.Pad2(59) == "59";
    assert Timestamp.FormatZone(0) == "Z";
  }

  /** The lower bound, parsed from the source's literal text. */
  lemma WindowStartParses()
    ensures Timestamp.Parse(WindowStartText) == Some(WindowStartStamp)
  {
    Timestamp.ParseFormat(WindowStartStamp);
    StartText();
  }

  /** The upper bound, parsed from the source's literal text. */
  lemma WindowEndParses()
    ensures Timestamp.Parse(WindowEndText) == Some(WindowEndStamp)
  {
    Timestamp.ParseFormat(WindowEndStamp);
    EndText();
  }

  function WindowStart(): int {
    Timestamp.Instant(WindowStartStamp)
  }

  function WindowEnd(): int {
    Timestamp.Instant(WindowEndStamp)
  }

  /** `start_date <= published_date <= end_date`, both bounds inclusive, as absolute instants. */
  predicate InWindow(t: int) {
    WindowStart() <= t <= WindowEnd()
  }

  /** For a UTC timestamp, the window holds exactly the minutes of the years 2023 and 2024. */
  lemma WindowIsYears2023And2024(st: Timestamp.Stamp)
    requires Timestamp.Valid(st) && st.offset == 0
    ensures InWindow(Timestamp.Instant(st)) <==> 2023 <= st.year <= 2024
  {
    Timestamp.InstantOrder(st, WindowStartStamp);
    Timestamp.InstantOrder(WindowEndStamp, st);
  }

  // ---------------------------------------------------------------- per description

  /** `description.get('value', '').lower()`. */
  function LoweredValue(d: Description): string {
    Lower(d.value.GetOr(""))
  }

  /** The description test: the lower-cased text contains "java" and not "javascript". */
  predicate IsJavaDescription(d: Description) {
    IsJavaText(LoweredValue(d))
  }

  /** The record built for a matching description of `item`, whose date text is `published`. */
  function MakeRecord(item: CveItem, published: string, d: Description, now: string): JavaVuln {
    JavaVuln(
      item.id,
      "Java",
      LoweredValue(d),
      item.versionData.GetOr(Str("")),
      published,
      now,
      "admin")
  }

  /** The records the inner loop appends for the descriptions `ds`, in order. */
  function DescriptionRecords(item: CveItem, published: string, ds: seq<Description>, now: string): seq<JavaVuln> {
    if ds == [] then []
    else
      var last := ds[|ds| - 1];
      DescriptionRecords(item, published, ds[..|ds| - 1], now)
        + (if IsJavaDescription(last) then [MakeRecord(item, published, last, now)] else [])
  }

  // ---------------------------------------------------------------- per item

  /** The descriptions the inner loop walks: an absent list reads as `[]`. */
  function DescriptionList(item: CveItem): seq<Description> {
    if item.descriptions.AList? then item.descriptions.elems else []
  }

  /** The item passes every skip rule: a non-empty date that parses and lies in the window, and no non-list descriptions. */
  predicate Qualifies(item: CveItem) {
    && item.publishedDate.Some?
    && item.publishedDate.value != ""
    && var parsed := Timestamp.Parse(item.publishedDate.value);
    && parsed.Some?
    && InWindow(Timestamp.Instant(parsed.value))
    && !item.descriptions.NotAList?
  }

  /** What one iteration of the outer loop appends for `item`. */
  function ItemRecords(item: CveItem, now: string): seq<JavaVuln> {
    match item.publishedDate
    case None => []
    case Some(published) =>
      if published == "" then []
      else
        match Timestamp.Parse(published)
        case None => []
        case Some(st) =>
          if InWindow(Timestamp.Instant(st)) then
            match item.descriptions
            case NotAList => []
            case Missing => DescriptionRecords(item, published, [], now)
            case AList(ds) => DescriptionRecords(item, published, ds, now)
          else []
  }

  /** The records of the items `items`, in order. */
  function ItemsRecords(items: seq<CveItem>, now: string): seq<JavaVuln> {
    if items == [] then []
    else ItemsRecords(items[..|items| - 1], now) + ItemRecords(items[|items| - 1], now)
  }

  /** The result of `filter_java_vulnerabilities(feed)` when the clock reads `now`. */
  function Filtered(feed: Feed, now: string): seq<JavaVuln> {
    match feed.cveItems
    case AList(items) => ItemsRecords(items, now)
    case _ => []
  }

  /** One more item extends the records of a prefix by that item's records. */
  lemma ItemsRecordsStep(items: seq<CveItem>, i: nat, now: string)
    requires i < |items|
    ensures ItemsRecords(items[..i + 1], now) == ItemsRecords(items[..i], now) + ItemRecords(items[i], now)
  {
    assert items[..i + 1][..i] == items[..i];
  }

  // ---------------------------------------------------------------- the method

  /** The source's inner loop over the descriptions of one item that passed the skip rules. */
  method CollectJavaDescriptions(item: CveItem, published: string, ds: seq<Description>, now: string)
    returns (found: seq<JavaVuln>)
    ensures found == DescriptionRecords(item, published, ds, now)
  {
    found := [];
    for j := 0 to |ds|
      invariant found == DescriptionRecords(item, published, ds[..j], now)
    {
      assert ds[..j + 1][..j] == ds[..j];
      var description := ds[j];
      var value := LoweredValue(description);
      if IsJavaText(value) {
        found := found + [MakeRecord(item, published, description, now)];
      }
    }
    assert ds[..|ds|] == ds;
  }

  /** The source's nested loop; `now` is the formatted creation time stamped on every record. */
  method FilterJavaVulnerabilities(feed: Feed, now: string) returns (javaVulns: seq<JavaVuln>)
    ensures javaVulns == Filtered(feed, now)
  {
    javaVulns := [];
    if !feed.cveItems.AList? {
      return;
    }
    var items := feed.cveItems.elems;
    for i := 0 to |items|
      invariant javaVulns == ItemsRecords(items[..i], now)
    {
      var item := items[i];
      ItemsRecordsStep(items, i, now);
      if item.publishedDate.None? || item.publishedDate.value == "" {
        continue;
      }
      var published := item.publishedDate.value;
      var parsed := Timestamp.Parse(published);
      if parsed.None? {
        continue;
      }
      var instant := Timestamp.Instant(parsed.value);
      if WindowStart() <= instant <= WindowEnd() {
        if item.descriptions.NotAList? {
          continue;
        }
        var ds := DescriptionList(item);
        assert ItemRecords(item, now) == DescriptionRecords(item, published, ds, now);
        var found := CollectJavaDescriptions(item, published, ds, now);
        javaVulns := javaVulns + found;
      }
    }
    assert items[..|items|] == items;
  }

  // ---------------------------------------------------------------- properties

  /** An item that fails a skip rule contributes no records. */
  lemma SkippedItemContributesNothing(item: CveItem, now: string)
    requires !Qualifies(item)
    ensures ItemRecords(item, now) == []
  {
  }

  /** A qualifying item contributes the records of its description list. */
  lemma QualifyingItemRecords(item: CveItem, now: string)
    requires Qualifies(item)
    ensures ItemRecords(item, now) == DescriptionRecords(item, item.publishedDate.value, DescriptionList(item), now)
  {
  }

  lemma AppendAssociative<T>(x: seq<T>, y: seq<T>, z: seq<T>)
    ensures (x + y) + z == x + (y + z)
  {
  }

  lemma {:induction false} DescriptionRecordsAppend(item: CveItem, published: string, a: seq<Description>, b: seq<Description>, now: string)
    ensures DescriptionRecords(item, published, a + b, now)
         == DescriptionRecords(item, published, a, now) + DescriptionRecords(item, published, b, now)
    decreases |b|
  {
    if b != [] {
      var init := b[..|b| - 1];
      var d := b[|b| - 1];
      var last := if IsJavaDescription(d) then [MakeRecord(item, published, d, now)] else [];
      assert (a + b)[..|a + b| - 1] == a + init;
      assert (a + b)[|a + b| - 1] == d;
      assert DescriptionRecords(item, published, a + b, now) == DescriptionRecords(item, published, a + init, now) + last;
      DescriptionRecordsAppend(item, published, a, init, now);
      AppendAssociative(DescriptionRecords(item, published, a, now), DescriptionRecords(item, published, init, now), last);
    } else {
      assert a + b == a;
    }
  }

  /** The filter distributes over concatenation of item lists: items are processed independently and in order. */
  lemma {:induction false} ItemsRecordsAppend(a: seq<CveItem>, b: seq<CveItem>, now: string)
    ensures ItemsRecords(a + b, now) == ItemsRecords(a, now) + ItemsRecords(b, now)
    decreases |b|
  {
    if b != [] {
      var init := b[..|b| - 1];
      var last := ItemRecords(b[|b| - 1], now);
      assert (a + b)[..|a + b| - 1] == a + init;
      assert (a + b)[|a + b| - 1] == b[|b| - 1];
      assert ItemsRecords(a + b, now) == ItemsRecords(a + init, now) + last;
      ItemsRecordsAppend(a, init, now);
      assert ItemsRecords(b, now) == ItemsRecords(init, now) + last;
      AppendAssociative(ItemsRecords(a, now), ItemsRecords(init, now), last);
    } else {
      assert a + b == a;
    }
  }

  lemma SingleItemRecords(item: CveItem, now: string)
    ensures ItemsRecords([item], now) == ItemRecords(item, now)
  {
    assert [item][..0] == [];
  }

  /** Skipping an item does not disturb the others: the output is as if the item were not there. */
  lemma SkippedItemIsTransparent(a: seq<CveItem>, item: CveItem, b: seq<CveItem>, now: string)
    requires !Qualifies(item)
    ensures ItemsRecords(a + [item] + b, now) == ItemsRecords(a + b, now)
  {
    var ra := ItemsRecords(a, now);
    var rb := ItemsRecords(b, now);
    ItemsRecordsAppend(a + [item], b, now);
    ItemsRecordsAppend(a, [item], now);
    ItemsRecordsAppend(a, b, now);
    SingleItemRecords(item, now);
    SkippedItemContributesNothing(item, now);
    assert ItemsRecords(a + [item], now) == ra;
  }

  /** The number of descriptions the filter inspects: those of items that pass the skip rules. */
  function InspectedDescriptions(items: seq<CveItem>): nat {
    if items == [] then 0
    else
      var last := items[|items| - 1];
      InspectedDescriptions(items[..|items| - 1]) + (if Qualifies(last) then |DescriptionList(last)| else 0)
  }

  lemma {:induction false} DescriptionRecordsBound(item: CveItem, published: string, ds: seq<Description>, now: string)
    ensures |DescriptionRecords(item, published, ds, now)| <= |ds|
    decreases |ds|
  {
    if ds != [] {
      DescriptionRecordsBound(item, published, ds[..|ds| - 1], now);
    }
  }

  /** At most one record per inspected description. */
  lemma {:induction false} OutputBound(items: seq<CveItem>, now: string)
    ensures |ItemsRecords(items, now)| <= InspectedDescriptions(items)
    decreases |items|
  {
    if items != [] {
      var last := items[|items| - 1];
      OutputBound(items[..|items| - 1], now);
      if Qualifies(last) {
        DescriptionRecordsBound(last, last.publishedDate.value, DescriptionList(last), now);
      }
    }
  }

  /** What every record `DescriptionRecords` emits looks like. */
  lemma {:induction false} DescriptionRecordShape(item: CveItem, published: string, ds: seq<Description>, now: string, r: JavaVuln)
    requires r in DescriptionRecords(item, published, ds, now)
    ensures exists d :: d in ds && IsJavaDescription(d) && r == MakeRecord(item, published, d, now)
    decreases |ds|
  {
    var last := ds[|ds| - 1];
    if r in DescriptionRecords(item, published, ds[..|ds| - 1], now) {
      DescriptionRecordShape(item, published, ds[..|ds| - 1], now, r);
      var d :| d in ds[..|ds| - 1] && IsJavaDescription(d) && r == MakeRecord(item, published, d, now);
      assert d in ds;
    } else {
      assert last in ds;
    }
  }

  lemma {:induction false} ItemsRecordsProvenance(items: seq<CveItem>, now: string, r: JavaVuln)
    requires r in ItemsRecords(items, now)
    ensures exists item :: item in items && r in ItemRecords(item, now)
    decreases |items|
  {
    var last := items[|items| - 1];
    if r in ItemsRecords(items[..|items| - 1], now) {
      ItemsRecordsProvenance(items[..|items| - 1], now, r);
      var item :| item in items[..|items| - 1] && r in ItemRecords(item, now);
      assert item in items;
    } else {
      assert last in items;
    }
  }

  /**
   * Every emitted record comes from a qualifying item of the feed and one of its matching
   * descriptions: `package_name` is "Java", `created_by` is "admin", `description` is the
   * lower-cased text (which mentions java and not javascript), `published_date` is the
   * item's unparsed date text, and `vulnerable_versions` is its version data or "".
   */
  lemma EmittedRecordShape(feed: Feed, now: string, r: JavaVuln)
    requires r in Filtered(feed, now)
    ensures r.packageName == "Java" && r.createdBy == "admin" && r.createdDate == now
    ensures IsJavaText(r.description) && Lower(r.description) == r.description
    ensures exists item :: item in feed.cveItems.elems && Qualifies(item)
              && r.cveId == item.id
              && r.publishedDate == item.publishedDate.value
              && r.vulnerableVersions == item.versionData.GetOr(Str(""))
              && exists d :: d in DescriptionList(item) && r.description == LoweredValue(d)
  {
    var items := feed.cveItems.elems;
    ItemsRecordsProvenance(items, now, r);
    var item :| item in items && r in ItemRecords(item, now);
    assert Qualifies(item);
    DescriptionRecordShape(item, item.publishedDate.value, DescriptionList(item), now, r);
    var d :| d in DescriptionList(item) && IsJavaDescription(d) && r == MakeRecord(item, item.publishedDate.value, d, now);
    LowerIsLower(d.value.GetOr(""));
  }

  lemma ItemsRecordsSplit(items: seq<CveItem>, i: int, now: string)
    requires 0 <= i < |items|
    ensures ItemsRecords(items, now)
         == ItemsRecords(items[..i], now) + ItemRecords(items[i], now) + ItemsRecords(items[i + 1..], now)
  {
    assert items == items[..i] + [items[i]] + items[i + 1..];
    ItemsRecordsAppend(items[..i] + [items[i]], items[i + 1..], now);
    ItemsRecordsAppend(items[..i], [items[i]], now);
    assert [items[i]][..0] == [];
  }

  lemma DescriptionRecordsSplit(item: CveItem, published: string, ds: seq<Description>, j: int, now: string)
    requires 0 <= j < |ds| && IsJavaDescription(ds[j])
    ensures DescriptionRecords(item, published, ds, now)
         == DescriptionRecords(item, published, ds[..j], now) + [MakeRecord(item, published, ds[j], now)]
            + DescriptionRecords(item, published, ds[j + 1..], now)
  {
    assert ds == ds[..j + 1] + ds[j + 1..];
    DescriptionRecordsAppend(item, published, ds[..j + 1], ds[j + 1..], now);
    assert ds[..j + 1][..j] == ds[..j];
  }

  /**
   * Every matching description of every qualifying item is emitted, at the position given by
   * the records of the items before it and of the descriptions before it: nothing is lost
   * and input order is kept for both items and descriptions.
   */
  lemma EmittedAtPosition(items: seq<CveItem>, i: int, j: int, now: string)
    requires 0 <= i < |items| && Qualifies(items[i])
    requires 0 <= j < |DescriptionList(items[i])| && IsJavaDescription(DescriptionList(items[i])[j])
    ensures var item := items[i];
            var ds := DescriptionList(item);
            var p := |ItemsRecords(items[..i], now)| + |DescriptionRecords(item, item.publishedDate.value, ds[..j], now)|;
            p < |ItemsRecords(items, now)|
            && ItemsRecords(items, now)[p] == MakeRecord(item, item.publishedDate.value, ds[j], now)
  {
    var item := items[i];
    var published := item.publishedDate.value;
    var ds := DescriptionList(item);
    ItemsRecordsSplit(items, i, now);
    QualifyingItemRecords(item, now);
    DescriptionRecordsSplit(item, published, ds, j, now);
    var before := ItemsRecords(items[..i], now);
    var left := DescriptionRecords(item, published, ds[..j], now);
    var x := MakeRecord(item, published, ds[j], now);
    var right := DescriptionRecords(item, published, ds[j + 1..], now);
    var after := ItemsRecords(items[i + 1..], now);
    assert ItemsRecords(items, now) == before + (left + [x] + right) + after;
    assert (before + (left + [x] + right) + after)[|before| + |left|] == x;
  }

  /** A feed whose `CVE_Items` is absent or not a list yields no records. */
  lemma NoItemListNoRecords(feed: Feed, now: string)
    requires !feed.cveItems.AList?
    ensures Filtered(feed, now) == []
  {
  }

  /** A description without a `value` never yields a record. */
  lemma MissingValueNeverMatches()
    ensures !IsJavaDescription(Description(None))
  {
    assert LoweredValue(Description(None)) == "";
  }
}
