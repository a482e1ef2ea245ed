/**
 * The hand-off from the filter to the store: the filter's records, as the dicts the source
 * builds, upserted into the collection. It also holds two end-to-end scenarios: a Java
 * description stored as a new document, and a JavaScript description that leaves the store
 * unchanged.
 */
module Pipeline {
  import opened Wrappers
  import opened Json
  import opened Text
  import Timestamp
  import opened Preprocess
  import opened Database

  /** The dict literal the filter appends for a record. */
  function AsRecord(r: JavaVuln): (v: Record)
    ensures Complete(v) && "created_date" in v && "created_by" in v
  {
    map[
      "cve_id" := r.cveId,
      "package_name" := Str(r.packageName),
      "description" := Str(r.description),
      "vulnerable_versions" := r.vulnerableVersions,
      "published_date" := Str(r.publishedDate),
      "created_date" := Str(r.createdDate),
      "created_by" := Str(r.createdBy)]
  }

  function AsRecords(rs: seq<JavaVuln>): (vs: seq<Record>)
    ensures |vs| == |rs| && AllComplete(vs)
    ensures forall i :: 0 <= i < |rs| ==> vs[i] == AsRecord(rs[i])
  {
    if rs == [] then [] else [AsRecord(rs[0])] + AsRecords(rs[1..])
  }

  /** A record the filter builds has every key, so the store keeps each of its fields and no default applies. */
  lemma StoredRecordFields(r: JavaVuln, now: Json)
    ensures DocOf(AsRecord(r), now)
         == Doc(Str(r.packageName), r.vulnerableVersions, Str(r.description), Str(r.publishedDate),
                Str(r.createdDate), Str(r.createdBy))
  {
  }

  /** Storing the filter's output never raises `KeyError`: every record it builds is complete. */
  lemma FilterOutputCompletes(feed: Feed, stamp: string)
    ensures BatchOutcome(AsRecords(Filtered(feed, stamp))) == Completed
  {
    CompleteBatchCompletes(AsRecords(Filtered(feed, stamp)));
  }

  /**
   * Every document the filter's output writes says "Java" and "admin", carries the filter's
   * creation stamp (not the store's clock) and a lower-cased description that mentions java
   * but not javascript.
   */
  lemma FilterOutputDocs(feed: Feed, stamp: string, docs: map<Json, Doc>, now: Json, k: Json)
    requires k in Ids(AsRecords(Filtered(feed, stamp)))
    ensures k in StoreAll(docs, AsRecords(Filtered(feed, stamp)), now)
    ensures var d := StoreAll(docs, AsRecords(Filtered(feed, stamp)), now)[k];
            && d.packageName == Str("Java")
            && d.createdBy == Str("admin")
            && d.createdDate == Str(stamp)
            && exists text :: d.description == Str(text) && IsJavaText(text) && Lower(text) == text
  {
    var rs := Filtered(feed, stamp);
    var vs := AsRecords(rs);
    StoreAllFromBatch(docs, vs, now, k);
    var i :| 0 <= i < |vs| && vs[i]["cve_id"] == k && StoreAll(docs, vs, now)[k] == DocOf(vs[i], now);
    var r := rs[i];
    assert r in rs;
    EmittedRecordShape(feed, stamp, r);
    StoredRecordFields(r, now);
  }

  // ---------------------------------------------------------------- scenarios

  const ScenarioDate: string := "2023-06-15T10:00Z"

  const ScenarioStamp: Timestamp.Stamp := Timestamp.Stamp(2023, 6, 15, 10, 0, 0)

  lemma ScenarioText()
    ensures Timestamp.Format(ScenarioStamp) == ScenarioDate
  {
    YearTexts();
    assert Timestamp.Pad2(6) == "06" && Timestamp.Pad2(15) == "15";
    assert Timestamp.Pad2(10) == "10" && Timestamp.Pad2(0) == "00";
    assert Timestamp.FormatZone(0) == "Z";
  }

  /** The scenario's date parses and lies in the window. */
  lemma ScenarioDateParses()
    ensures Timestamp.Parse(ScenarioDate) == Some(ScenarioStamp)
    ensures InWindow(Timestamp.Instant(ScenarioStamp))
  {
    Timestamp.ParseFormat(ScenarioStamp);
    ScenarioText();
    WindowIsYears2023And2024(ScenarioStamp);
  }

  function ScenarioFeed(text: string): Feed {
    Feed(AList([CveItem(Str("CVE-2023-0001"), Some(ScenarioDate), AList([Description(Some(text))]), None)]))
  }

  /** A feed of one qualifying item with one description gives that description's record, when it matches. */
  lemma OneItemFeed(item: CveItem, d: Description, stamp: string)
    requires Qualifies(item) && item.descriptions == AList([d])
    ensures Filtered(Feed(AList([item])), stamp)
         == if IsJavaDescription(d) then [MakeRecord(item, item.publishedDate.value, d, stamp)] else []
  {
    QualifyingItemRecords(item, stamp);
    assert DescriptionList(item) == [d];
    assert DescriptionRecords(item, item.publishedDate.value, [d], stamp)
        == DescriptionRecords(item, item.publishedDate.value, [], stamp)
           + (if IsJavaDescription(d) then [MakeRecord(item, item.publishedDate.value, d, stamp)] else []) by {
      assert [d][..0] == [];
    }
    assert ItemsRecords([item], stamp) == ItemsRecords([], stamp) + ItemRecords(item, stamp) by {
      assert [item][..0] == [];
    }
  }

  /** The scenario's records are those of its one description, when it matches. */
  lemma ScenarioRecords(text: string, stamp: string)
    ensures Filtered(ScenarioFeed(text), stamp)
         == if IsJavaText(Lower(text))
            then [JavaVuln(Str("CVE-2023-0001"), "Java", Lower(text), Str(""), ScenarioDate, stamp, "admin")]
            else []
  {
    ScenarioDateParses();
    var item := CveItem(Str("CVE-2023-0001"), Some(ScenarioDate), AList([Description(Some(text))]), None);
    assert Qualifies(item);
    OneItemFeed(item, Description(Some(text)), stamp);
  }

  /** A description whose lower-cased text names Java, dated in the window, gives one record, stored as a new document. */
  lemma JavaScenario(text: string, stamp: string, now: Json)
    requires IsJavaText(Lower(text))
    ensures Filtered(ScenarioFeed(text), stamp)
         == [JavaVuln(Str("CVE-2023-0001"), "Java", Lower(text), Str(""), ScenarioDate, stamp, "admin")]
    ensures StoreAll(map[], AsRecords(Filtered(ScenarioFeed(text), stamp)), now)
         == map[Str("CVE-2023-0001") := Doc(Str("Java"), Str(""), Str(Lower(text)),
                                            Str(ScenarioDate), Str(stamp), Str("admin"))]
  {
    ScenarioRecords(text, stamp);
    var r := JavaVuln(Str("CVE-2023-0001"), "Java", Lower(text), Str(""), ScenarioDate, stamp, "admin");
    var vs := AsRecords([r]);
    assert vs == [AsRecord(r)];
    assert vs[..0] == [];
    assert StoreAll(map[], vs, now) == map[][Str("CVE-2023-0001") := DocOf(AsRecord(r), now)];
    StoredRecordFields(r, now);
  }

  /** A description naming JavaScript gives no record, so the store is unchanged. */
  lemma JavaScriptScenario(text: string, stamp: string, docs: map<Json, Doc>, now: Json)
    requires Contains(Lower(text), "javascript")
    ensures Filtered(ScenarioFeed(text), stamp) == []
    ensures StoreAll(docs, AsRecords(Filtered(ScenarioFeed(text), stamp)), now) == docs
  {
    ScenarioRecords(text, stamp);
  }
}
