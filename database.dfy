/**
 * `store_vulnerabilities` and `update_vulnerabilities`: walk a list of records and upsert
 * each one into the collection by `cve_id`, a `$set` of six fields with defaults for the
 * optional ones.
 *
 * The collection is a map from the `cve_id` value to the document's six `$set` fields.
 * The current time used for a missing `created_date` is a parameter.
 */
module Database {
  import opened Wrappers
  import opened Json

  /** A record handed to the store: a Python dict from field names to values. */
  type Record = map<string, Json>

  /** The fields a stored document receives from `$set`. */
  datatype Doc = Doc(
    packageName: Json,
    vulnerableVersions: Json,
    description: Json,
    publishedDate: Json,
    createdDate: Json,
    createdBy: Json)

  /** How a batch ends: every record upserted, or a `KeyError` at record `index` for `key`. */
  datatype Outcome = Completed | KeyError(index: nat, key: string)

  /** The record holds the keys read with `vuln[...]`, which raise `KeyError` when absent. */
  predicate Complete(v: Record) {
    "cve_id" in v && "package_name" in v && "vulnerable_versions" in v
  }

  /** The first required key, in the order the source evaluates them, that `v` lacks. */
  function MissingKey(v: Record): (r: Option<string>)
    ensures r.None? <==> Complete(v)
    ensures r.Some? ==> r.value !in v
    ensures r.Some? ==> r.value in {"cve_id", "package_name", "vulnerable_versions"}
    ensures r == Some("package_name") ==> "cve_id" in v
    ensures r == Some("vulnerable_versions") ==> "cve_id" in v && "package_name" in v
  {
    if "cve_id" !in v then Some("cve_id")
    else if "package_name" !in v then Some("package_name")
    else if "vulnerable_versions" !in v then Some("vulnerable_versions")
    else None
  }

  /** `v.get(key, default)`. */
  function Get(v: Record, key: string, default: Json): Json {
    if key in v then v[key] else default
  }

  /** The `$set` document built for `v` when the clock reads `now`. */
  function DocOf(v: Record, now: Json): Doc
    requires Complete(v)
  {
    Doc(
      v["package_name"],
      v["vulnerable_versions"],
      Get(v, "description", Str("")),
      Get(v, "published_date", Str("")),
      Get(v, "created_date", now),
      Get(v, "created_by", Str("unknown")))
  }

  predicate AllComplete(vs: seq<Record>) {
    forall i :: 0 <= i < |vs| ==> Complete(vs[i])
  }

  /** The store after upserting the complete records `vs` in order. */
  function StoreAll(docs: map<Json, Doc>, vs: seq<Record>, now: Json): map<Json, Doc>
    requires AllComplete(vs)
  {
    if vs == [] then docs
    else
      var last := vs[|vs| - 1];
      StoreAll(docs, vs[..|vs| - 1], now)[last["cve_id"] := DocOf(last, now)]
  }

  /** The number of records upserted before the first one that raises `KeyError`. */
  function Processed(vs: seq<Record>): (n: nat)
    ensures n <= |vs|
    ensures AllComplete(vs[..n])
    ensures forall k :: 0 <= k < n ==> Complete(vs[k])
    ensures n < |vs| ==> !Complete(vs[n])
  {
    if vs == [] || !Complete(vs[0]) then 0
    else
      var n := 1 + Processed(vs[1..]);
      assert forall i :: 1 <= i < n ==> vs[..n][i] == vs[1..][..n - 1][i - 1];
      n
  }

  /** The outcome of a batch over `vs`. */
  function BatchOutcome(vs: seq<Record>): Outcome {
    var n := Processed(vs);
    if n == |vs| then Completed else KeyError(n, MissingKey(vs[n]).value)
  }

  /** A batch of complete records runs to the end: nothing raises and every record is upserted. */
  lemma CompleteBatchCompletes(vs: seq<Record>)
    requires AllComplete(vs)
    ensures Processed(vs) == |vs|
    ensures BatchOutcome(vs) == Completed
  {
  }

  /** The `cve_id`s of the complete records `vs`. */
  function Ids(vs: seq<Record>): set<Json>
    requires AllComplete(vs)
  {
    set i | 0 <= i < |vs| :: vs[i]["cve_id"]
  }

  /** Upserting one more complete record extends the store of a prefix. */
  lemma StoreAllStep(docs: map<Json, Doc>, vs: seq<Record>, i: nat, now: Json)
    requires i <= Processed(vs) && i < |vs| && Complete(vs[i])
    ensures i + 1 <= Processed(vs)
    ensures AllComplete(vs[..i + 1])
    ensures StoreAll(docs, vs[..i + 1], now) == StoreAll(docs, vs[..i], now)[vs[i]["cve_id"] := DocOf(vs[i], now)]
  {
    assert vs[..i + 1][..i] == vs[..i];
    assert forall k :: 0 <= k < i ==> vs[..i + 1][k] == vs[..Processed(vs)][k];
  }

  /** The vulnerability collection; its documents, keyed by `cve_id`. */
  class Collection {
    var docs: map<Json, Doc>

    constructor (initial: map<Json, Doc>)
      ensures docs == initial
    {
      docs := initial;
    }

    /** One `update_one({'cve_id': ...}, {'$set': ...}, upsert=True)`, after reading the record's keys. */
    method UpsertOne(v: Record, now: Json) returns (missing: Option<string>)
      modifies this
      ensures missing == MissingKey(v)
      ensures missing.None? ==> docs == old(docs)[v["cve_id"] := DocOf(v, now)]
      ensures missing.Some? ==> docs == old(docs)
    {
      missing := MissingKey(v);
      if missing.None? {
        docs := docs[v["cve_id"] := DocOf(v, now)];
      }
    }

    /** `store_vulnerabilities(vulns)`: the records before the first `KeyError` are upserted, in order. */
    method StoreVulnerabilities(vulns: seq<Record>, now: Json) returns (outcome: Outcome)
      modifies this
      ensures docs == StoreAll(old(docs), vulns[..Processed(vulns)], now)
      ensures outcome == BatchOutcome(vulns)
    {
      for i := 0 to |vulns|
        invariant i <= Processed(vulns)
        invariant docs == StoreAll(old(docs), vulns[..i], now)
      {
        var missing := UpsertOne(vulns[i], now);
        if missing.Some? {
          return KeyError(i, missing.value);
        }
        StoreAllStep(old(docs), vulns, i, now);
      }
      return Completed;
    }

    /** `update_vulnerabilities(vulns)`: the same loop as `store_vulnerabilities`. */
    method UpdateVulnerabilities(vulns: seq<Record>, now: Json) returns (outcome: Outcome)
      modifies this
      ensures docs == StoreAll(old(docs), vulns[..Processed(vulns)], now)
      ensures outcome == BatchOutcome(vulns)
    {
      for i := 0 to |vulns|
        invariant i <= Processed(vulns)
        invariant docs == StoreAll(old(docs), vulns[..i], now)
      {
        var missing := UpsertOne(vulns[i], now);
        if missing.Some? {
          return KeyError(i, missing.value);
        }
        StoreAllStep(old(docs), vulns, i, now);
      }
      return Completed;
    }
  }

  // ---------------------------------------------------------------- properties

  lemma IdsOfPrefix(vs: seq<Record>)
    requires AllComplete(vs) && vs != []
    ensures Ids(vs) == Ids(vs[..|vs| - 1]) + {vs[|vs| - 1]["cve_id"]}
  {
    var pre := vs[..|vs| - 1];
    forall k | k in Ids(vs) ensures k in Ids(pre) + {vs[|vs| - 1]["cve_id"]} {
      var i :| 0 <= i < |vs| && vs[i]["cve_id"] == k;
      if i < |vs| - 1 {
        assert pre[i] == vs[i];
      }
    }
    forall k | k in Ids(pre) ensures k in Ids(vs) {
      var i :| 0 <= i < |pre| && pre[i]["cve_id"] == k;
      assert vs[i] == pre[i];
    }
  }

  /** After the batch the store's keys are the old keys and every `cve_id` of the batch; one document per id. */
  lemma {:induction false} StoreAllKeys(docs: map<Json, Doc>, vs: seq<Record>, now: Json)
    requires AllComplete(vs)
    ensures StoreAll(docs, vs, now).Keys == docs.Keys + Ids(vs)
    decreases |vs|
  {
    if vs != [] {
      StoreAllKeys(docs, vs[..|vs| - 1], now);
      IdsOfPrefix(vs);
    }
  }

  /** A document whose key is no `cve_id` of the batch is left as it was (or stays absent). */
  lemma {:induction false} StoreAllUntouched(docs: map<Json, Doc>, vs: seq<Record>, now: Json, k: Json)
    requires AllComplete(vs) && k !in Ids(vs)
    ensures k in StoreAll(docs, vs, now) <==> k in docs
    ensures k in docs ==> StoreAll(docs, vs, now)[k] == docs[k]
    decreases |vs|
  {
    if vs != [] {
      IdsOfPrefix(vs);
      StoreAllUntouched(docs, vs[..|vs| - 1], now, k);
    }
  }

  /**
   * Last write wins: the document for a record's `cve_id` is the one built from the last
   * record of the batch with that id, with `description` and `published_date` defaulting
   * to "", `created_date` to `now` and `created_by` to "unknown".
   */
  lemma {:induction false} StoreAllLastWins(docs: map<Json, Doc>, vs: seq<Record>, now: Json, i: int)
    requires AllComplete(vs) && 0 <= i < |vs|
    requires forall j :: i < j < |vs| ==> vs[j]["cve_id"] != vs[i]["cve_id"]
    ensures vs[i]["cve_id"] in StoreAll(docs, vs, now)
    ensures var v := vs[i];
            var d := StoreAll(docs, vs, now)[v["cve_id"]];
            && d.packageName == v["package_name"]
            && d.vulnerableVersions == v["vulnerable_versions"]
            && d.description == (if "description" in v then v["description"] else Str(""))
            && d.publishedDate == (if "published_date" in v then v["published_date"] else Str(""))
            && d.createdDate == (if "created_date" in v then v["created_date"] else now)
            && d.createdBy == (if "created_by" in v then v["created_by"] else Str("unknown"))
    decreases |vs|
  {
    if i < |vs| - 1 {
      var pre := vs[..|vs| - 1];
      assert pre[i] == vs[i];
      StoreAllLastWins(docs, pre, now, i);
    }
  }

  /** Every document stored for an id of the batch was built from a record of the batch with that id. */
  lemma {:induction false} StoreAllFromBatch(docs: map<Json, Doc>, vs: seq<Record>, now: Json, k: Json)
    requires AllComplete(vs) && k in Ids(vs)
    ensures k in StoreAll(docs, vs, now)
    ensures exists i :: 0 <= i < |vs| && vs[i]["cve_id"] == k && StoreAll(docs, vs, now)[k] == DocOf(vs[i], now)
    decreases |vs|
  {
    var last := vs[|vs| - 1];
    if last["cve_id"] != k {
      var pre := vs[..|vs| - 1];
      IdsOfPrefix(vs);
      StoreAllFromBatch(docs, pre, now, k);
      var i :| 0 <= i < |pre| && pre[i]["cve_id"] == k && StoreAll(docs, pre, now)[k] == DocOf(pre[i], now);
      assert vs[i] == pre[i];
    }
  }

  /** Documents for ids of the batch do not depend on what the store held before. */
  lemma {:induction false} StoreAllForgetsOld(d1: map<Json, Doc>, d2: map<Json, Doc>, vs: seq<Record>, now: Json, k: Json)
    requires AllComplete(vs) && k in Ids(vs)
    ensures k in StoreAll(d1, vs, now) && k in StoreAll(d2, vs, now)
    ensures StoreAll(d1, vs, now)[k] == StoreAll(d2, vs, now)[k]
    decreases |vs|
  {
    StoreAllKeys(d1, vs, now);
    StoreAllKeys(d2, vs, now);
    var last := vs[|vs| - 1];
    if last["cve_id"] != k {
      IdsOfPrefix(vs);
      StoreAllForgetsOld(d1, d2, vs[..|vs| - 1], now, k);
    }
  }

  /** With the clock held fixed, storing the same batch twice leaves the store as storing it once. */
  lemma StoreAllIdempotent(docs: map<Json, Doc>, vs: seq<Record>, now: Json)
    requires AllComplete(vs)
    ensures StoreAll(StoreAll(docs, vs, now), vs, now) == StoreAll(docs, vs, now)
  {
    var once := StoreAll(docs, vs, now);
    var twice := StoreAll(once, vs, now);
    StoreAllKeys(docs, vs, now);
    StoreAllKeys(once, vs, now);
    forall k | k in twice.Keys ensures twice[k] == once[k] {
      if k in Ids(vs) {
        StoreAllForgetsOld(once, docs, vs, now, k);
      } else {
        StoreAllUntouched(once, vs, now, k);
      }
    }
  }

  /** When every record carries `created_date`, the clock reading does not matter. */
  lemma {:induction false} StoreAllIgnoresClock(docs: map<Json, Doc>, vs: seq<Record>, now1: Json, now2: Json)
    requires AllComplete(vs)
    requires forall i :: 0 <= i < |vs| ==> "created_date" in vs[i]
    ensures StoreAll(docs, vs, now1) == StoreAll(docs, vs, now2)
    decreases |vs|
  {
    if vs != [] {
      StoreAllIgnoresClock(docs, vs[..|vs| - 1], now1, now2);
    }
  }

  /** When every record carries `created_date`, a second run at another time changes nothing. */
  lemma StoreAllIdempotentStamped(docs: map<Json, Doc>, vs: seq<Record>, now1: Json, now2: Json)
    requires AllComplete(vs)
    requires forall i :: 0 <= i < |vs| ==> "created_date" in vs[i]
    ensures StoreAll(StoreAll(docs, vs, now1), vs, now2) == StoreAll(docs, vs, now1)
  {
    StoreAllIgnoresClock(StoreAll(docs, vs, now1), vs, now2, now1);
    StoreAllIdempotent(docs, vs, now1);
  }
}
