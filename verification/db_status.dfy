/** The schema diagnosis (GET /api/db-status): which of the five required
    tables are missing, whether the schema is ready, and a row count per
    table once it is. The table list and the count queries are inputs. */
module DbStatus {
  import opened Common
  import opened Store

  /** The required tables, in the order the report lists them. */
  const RequiredTables: seq<string> := [UsersTable, HotelsTable, RoomsTable, BookingsTable, ReviewsTable]

  /** The result of `SELECT COUNT(*)` on one table. */
  datatype CountProbe = CountOk(n: nat) | CountError(message: string)

  /** The value stored in `counts` for one table: a number, or the text
      "Error: " followed by the driver's message. */
  datatype CountEntry = CountValue(n: nat) | CountText(text: string)

  datatype StatusReport = StatusReport(
    allTables: seq<string>,
    requiredTables: seq<string>,
    missingTables: seq<string>,
    tablesReady: bool,
    counts: seq<(string, CountEntry)>)

  /** The listing of existing tables, or the failure of the first queries. */
  datatype Schema = Reachable(tableNames: seq<string>) | Unreachable(message: string)

  datatype StatusOutcome = Report(report: StatusReport) | StatusFailed(message: string)   // 200 / 500

  function NotIn(names: seq<string>): string -> bool {
    t => t !in names
  }

  /** `requiredTables.filter(t => !tableNames.includes(t))`. */
  function MissingTables(required: seq<string>, tableNames: seq<string>): (m: seq<string>)
    ensures |m| <= |required|
    ensures forall t :: t in m <==> t in required && t !in tableNames
  {
    var m := Filter(required, NotIn(tableNames));
    assert forall t :: t in m ==> t in required && t !in tableNames by {
      forall t | t in m
        ensures t in required && t !in tableNames
      {
        var i :| 0 <= i < |m| && m[i] == t;
      }
    }
    assert forall t :: t in required && t !in tableNames ==> t in m by {
      forall t | t in required && t !in tableNames
        ensures t in m
      {
        var i :| 0 <= i < |required| && required[i] == t;
      }
    }
    m
  }

  /** `m` is `xs` with some elements dropped, the rest in their order. */
  predicate Subsequence(m: seq<string>, xs: seq<string>)
    decreases |xs|
  {
    if |m| == 0 then true
    else if |xs| == 0 then false
    else (m[0] == xs[0] && Subsequence(m[1..], xs[1..])) || Subsequence(m, xs[1..])
  }

  lemma {:induction false} FilterIsSubsequence(xs: seq<string>, p: string -> bool)
    ensures Subsequence(Filter(xs, p), xs)
    decreases |xs|
  {
    if |xs| > 0 {
      FilterIsSubsequence(xs[1..], p);
      var rest := Filter(xs[1..], p);
      if p(xs[0]) {
        assert Filter(xs, p) == [xs[0]] + rest;
        assert ([xs[0]] + rest)[1..] == rest;
      }
    }
  }

  /** One `counts` entry per required table, in order; a failed count
      records its error for that table and the loop goes on. */
  function Counts(tables: seq<string>, probe: string -> CountProbe): (c: seq<(string, CountEntry)>)
    ensures |c| == |tables|
    ensures forall i :: 0 <= i < |tables| ==> c[i].0 == tables[i]
    ensures forall i :: 0 <= i < |tables| ==>
      (probe(tables[i]).CountOk? ==> c[i].1 == CountValue(probe(tables[i]).n))
    ensures forall i :: 0 <= i < |tables| ==>
      (probe(tables[i]).CountError? ==> c[i].1 == CountText("Error: " + probe(tables[i]).message))
  {
    seq(|tables|, i requires 0 <= i < |tables| =>
      (tables[i],
       match probe(tables[i])
       case CountOk(n) => CountValue(n)
       case CountError(msg) => CountText("Error: " + msg)))
  }

  /** GET /api/db-status. */
  function Status(schema: Schema, probe: string -> CountProbe): (r: StatusOutcome)
    ensures r.StatusFailed? <==> schema.Unreachable?
    ensures r.Report? ==>
      && r.report.allTables == schema.tableNames
      && r.report.requiredTables == RequiredTables
      && |r.report.missingTables| <= 5
      && (forall t :: t in r.report.missingTables <==> t in RequiredTables && t !in schema.tableNames)
      && Subsequence(r.report.missingTables, RequiredTables)
      && (r.report.tablesReady <==> r.report.missingTables == [])
      && (r.report.tablesReady <==> forall t :: t in RequiredTables ==> t in schema.tableNames)
      && (!r.report.tablesReady ==> r.report.counts == [])
      && (r.report.tablesReady ==>
            |r.report.counts| == 5 && forall i :: 0 <= i < 5 ==> r.report.counts[i].0 == RequiredTables[i])
      // every table is probed, and each entry is that table's own count or error
      && (r.report.tablesReady ==> r.report.counts == Counts(RequiredTables, probe))
  {
    match schema
    case Unreachable(msg) => StatusFailed(msg)
    case Reachable(names) =>
      var missing := MissingTables(RequiredTables, names);
      FilterIsSubsequence(RequiredTables, NotIn(names));
      var ready := |missing| == 0;
      assert ready <==> forall t :: t in RequiredTables ==> t in names by {
        if !ready {
          assert missing[0] in missing;
        }
      }
      Report(StatusReport(names, RequiredTables, missing, ready,
                          if ready then Counts(RequiredTables, probe) else []))
  }
}
