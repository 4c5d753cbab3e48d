/**
 * The statement lifecycle of db.go and fixrupr.go: which statements `create`,
 * `insert` and `drop` issue against the connection, in which order, and which
 * error each returns. The connection records every statement and answers it
 * with success or a failure chosen by an arbitrary `verdict` on the history so
 * far; the test suite's `mockDb` is the verdict that never fails.
 */
module Db {
  import opened Wrappers
  import opened Text
  import opened Errors
  import opened Conf
  import opened Insert

  /** One `Exec` call: the query text and its arguments. */
  datatype Stmt = Stmt(query: string, args: seq<Param>)

  /** How the database answers a statement, given every statement before it. */
  type Verdict = (seq<Stmt>, Stmt) -> Option<Failure>

  /** `fixrConn`: a connection that logs each `Exec` and answers it by the verdict. */
  class Conn {
    const verdict: Verdict
    var log: seq<Stmt>

    constructor (verdict: Verdict)
      ensures this.verdict == verdict && log == []
    {
      this.verdict := verdict;
      log := [];
    }

    method Exec(query: string, args: seq<Param>) returns (err: Option<Failure>)
      modifies this
      ensures log == old(log) + [Stmt(query, args)]
      ensures err == verdict(old(log), Stmt(query, args))
    {
      err := verdict(log, Stmt(query, args));
      log := log + [Stmt(query, args)];
    }
  }

  /** Statements `lo` up to `hi` of log `l` each succeeded, answered on the log before them. */
  ghost predicate Answered(verdict: Verdict, l: seq<Stmt>, lo: int, hi: int)
  {
    forall k :: 0 <= lo <= k < hi <= |l| ==> verdict(l[..k], l[k]).None?
  }

  /** How far a fail-fast run got: it issued the plan up to `end`, and returned `err`. */
  datatype Run = Run(end: nat, err: Option<DbError>)

  /** The log went from `log0` to `log1` by issuing `plan` up to the run's end, and `err` is its error. */
  predicate Performed(plan: seq<Stmt>, log0: seq<Stmt>, log1: seq<Stmt>, err: Option<DbError>, r: Run)
  {
    r.end <= |plan| && log1 == log0 + plan[..r.end] && err == r.err
  }

  /**
   * The error-threading of `create`, `insert` and `schema`, from statement `i`
   * of the plan on, after `log` and the plan's first `i` statements: issue in
   * order and stop at the first failure, which is returned as a `dbError`
   * with the statement's query and arguments.
   */
  function FailFastFrom(plan: seq<Stmt>, i: nat, verdict: Verdict, log: seq<Stmt>): (r: Run)
    requires i <= |plan|
    ensures i <= r.end <= |plan|
    ensures r.err.None? ==> r.end == |plan|
    decreases |plan| - i
  {
    if i == |plan| then Run(i, None)
    else
      match verdict(log + plan[..i], plan[i])
      case Some(f) => Run(i + 1, Some(NewDbError(f, plan[i].query, plan[i].args)))
      case None => FailFastFrom(plan, i + 1, verdict, log)
  }

  /** The whole plan, fail-fast, after `log`. */
  function FailFast(plan: seq<Stmt>, verdict: Verdict, log: seq<Stmt>): Run
  {
    FailFastFrom(plan, 0, verdict, log)
  }

  /**
   * A fail-fast run issues a prefix of the plan, every statement but a failing
   * last one succeeding: without an error it issued the whole plan successfully,
   * and with one the error is the last statement's failure, carrying that
   * statement's query and arguments.
   */
  lemma {:induction false} FailFastSpec(plan: seq<Stmt>, i: nat, verdict: Verdict, log: seq<Stmt>)
    requires i <= |plan|
    ensures var r := FailFastFrom(plan, i, verdict, log);
            && (r.err.None? ==> Answered(verdict, log + plan, |log| + i, |log| + |plan|))
            && (r.err.Some? ==>
                  var n := r.end - 1;
                  && Answered(verdict, log + plan, |log| + i, |log| + n)
                  && verdict(log + plan[..n], plan[n]) == Some(r.err.value.err)
                  && r.err.value == NewDbError(r.err.value.err, plan[n].query, plan[n].args))
    decreases |plan| - i
  {
    if i < |plan| {
      assert (log + plan)[..|log| + i] == log + plan[..i] && (log + plan)[|log| + i] == plan[i];
      if verdict(log + plan[..i], plan[i]).None? {
        FailFastSpec(plan, i + 1, verdict, log);
      }
    }
  }

  /** A fail-fast run ends without error exactly when every statement of the plan succeeds. */
  lemma FailFastSucceedsIff(plan: seq<Stmt>, verdict: Verdict, log: seq<Stmt>)
    ensures FailFast(plan, verdict, log).err.None? <==> Answered(verdict, log + plan, |log|, |log| + |plan|)
  {
    FailFastSpec(plan, 0, verdict, log);
    var r := FailFast(plan, verdict, log);
    if r.err.Some? {
      var n := r.end - 1;
      assert (log + plan)[..|log| + n] == log + plan[..n] && (log + plan)[|log| + n] == plan[n];
    }
  }

  /**
   * Running a plan through a segment `part` that it holds at `k`: the segment's
   * own run decides whether the plan's run stops inside it or goes on after it.
   */
  lemma {:induction false} FailFastSegment(plan: seq<Stmt>, k: nat, part: seq<Stmt>, j: nat, verdict: Verdict,
                                           log: seq<Stmt>)
    requires k + |part| <= |plan| && plan[k..k + |part|] == part && j <= |part|
    ensures var r := FailFastFrom(part, j, verdict, log + plan[..k]);
            FailFastFrom(plan, k + j, verdict, log) ==
              if r.err.Some? then Run(k + r.end, r.err) else FailFastFrom(plan, k + |part|, verdict, log)
    decreases |part| - j
  {
    if j < |part| {
      assert plan[k + j] == part[j];
      assert log + plan[..k + j] == (log + plan[..k]) + part[..j] by {
        assert plan[..k + j] == plan[..k] + part[..j];
      }
      FailFastSegment(plan, k, part, j + 1, verdict, log);
    }
  }

  /** Running two plans fail-fast is running the second after the first, if the first succeeds. */
  lemma FailFastAppend(a: seq<Stmt>, b: seq<Stmt>, verdict: Verdict, log: seq<Stmt>)
    ensures FailFast(a + b, verdict, log) ==
              var r := FailFast(a, verdict, log);
              if r.err.Some? then r
              else var r' := FailFast(b, verdict, log + a); Run(|a| + r'.end, r'.err)
  {
    assert (a + b)[0..|a|] == a && (a + b)[|a|..|a| + |b|] == b;
    assert (a + b)[..0] == [] && (a + b)[..|a|] == a && log + [] == log;
    FailFastSegment(a + b, 0, a, 0, verdict, log);
    FailFastSegment(a + b, |a|, b, 0, verdict, log);
  }

  /**
   * A walk through `plan` after `log0` has issued its first `m` statements,
   * all successfully, so that `log` is the log now and `rest` what is left.
   */
  ghost predicate Walked(plan: seq<Stmt>, m: nat, rest: seq<Stmt>, verdict: Verdict, log0: seq<Stmt>, log: seq<Stmt>)
  {
    && m <= |plan| && plan[m..] == rest && log == log0 + plan[..m]
    && FailFast(plan, verdict, log0) == FailFastFrom(plan, m, verdict, log0)
  }

  lemma WalkStart(plan: seq<Stmt>, verdict: Verdict, log0: seq<Stmt>)
    ensures Walked(plan, 0, plan, verdict, log0, log0)
  {
    assert plan[..0] == [] && log0 + [] == log0 && plan[0..] == plan;
  }

  /** A walk with nothing left has performed the whole plan without error. */
  lemma WalkEnd(plan: seq<Stmt>, m: nat, verdict: Verdict, log0: seq<Stmt>, log: seq<Stmt>)
    requires Walked(plan, m, [], verdict, log0, log)
    ensures Performed(plan, log0, log, None, FailFast(plan, verdict, log0))
  {
  }

  /**
   * A method of the runner has just performed `part`, the next segment of the
   * plan it walks: if that failed, the whole plan's run has failed there; if
   * not, the walk goes on after the segment.
   */
  lemma Advance(plan: seq<Stmt>, m: nat, part: seq<Stmt>, rest: seq<Stmt>, verdict: Verdict, log0: seq<Stmt>,
                log: seq<Stmt>, log1: seq<Stmt>, err: Option<DbError>)
    requires Walked(plan, m, part + rest, verdict, log0, log)
    requires Performed(part, log, log1, err, FailFast(part, verdict, log))
    ensures err.Some? ==> Performed(plan, log0, log1, err, FailFast(plan, verdict, log0))
    ensures err.None? ==> Walked(plan, m + |part|, rest, verdict, log0, log1)
  {
    SliceParts(plan, m, part, rest);
    FailFastSegment(plan, m, part, 0, verdict, log0);
    var r := FailFast(part, verdict, log);
    SliceLog(plan, m, part, r.end, log0);
  }

  lemma SliceParts(plan: seq<Stmt>, m: nat, part: seq<Stmt>, rest: seq<Stmt>)
    requires m <= |plan| && plan[m..] == part + rest
    ensures m + |part| <= |plan| && plan[m..m + |part|] == part && plan[m + |part|..] == rest
  {
    assert plan[m..m + |part|] == plan[m..][..|part|];
    assert plan[m + |part|..] == plan[m..][|part|..];
  }

  lemma SliceLog(plan: seq<Stmt>, m: nat, part: seq<Stmt>, k: nat, log0: seq<Stmt>)
    requires m + |part| <= |plan| && plan[m..m + |part|] == part && k <= |part|
    ensures log0 + plan[..m + k] == (log0 + plan[..m]) + part[..k]
  {
    assert plan[..m + k] == plan[..m] + part[..k];
  }

  /** Performing `a` and then, only if that succeeded, `b` is performing `a + b` fail-fast. */
  lemma Sequenced(a: seq<Stmt>, b: seq<Stmt>, verdict: Verdict, log0: seq<Stmt>, log1: seq<Stmt>, log2: seq<Stmt>,
                  err1: Option<DbError>, err2: Option<DbError>)
    requires Performed(a, log0, log1, err1, FailFast(a, verdict, log0))
    requires err1.None? ==> Performed(b, log1, log2, err2, FailFast(b, verdict, log1))
    ensures err1.Some? ==> Performed(a + b, log0, log1, err1, FailFast(a + b, verdict, log0))
    ensures err1.None? ==> Performed(a + b, log0, log2, err2, FailFast(a + b, verdict, log0))
  {
    FailFastAppend(a, b, verdict, log0);
    var r := FailFast(a, verdict, log0);
    assert (a + b)[..r.end] == a[..r.end];
    if err1.None? {
      var r' := FailFast(b, verdict, log0 + a);
      assert a[..r.end] == a;
      assert (a + b)[..|a| + r'.end] == a + b[..r'.end];
    }
  }

  // ---------------------------------------------------------------------------
  // The statements of `create`

  /** The hostname `schema` records: the host's name, or "<unknown>" when it cannot be read. */
  function RecordedHostname(host: Option<string>): string
  {
    if host.Some? then host.value else "<unknown>"
  }

  const ProvenanceQuery := "insert into zombie.schemas (name, prefix, hostname) values (?, ?, ?)"

  /** The two statements of `schema`: the provenance record, then the schema itself. */
  function SchemaStmts(prefix: string, name: string, hostname: string): seq<Stmt>
  {
    [ Stmt(ProvenanceQuery, [Str(name), Str(prefix), Str(hostname)]),
      Stmt("create schema `" + prefix + "_" + name + "`", []) ]
  }

  /** `exec`: a DDL text with every `{{schema}}` replaced by the prefixed schema name, no arguments. */
  function DdlStmt(prefix: string, schema: string, ddl: string): Stmt
  {
    Stmt(ReplaceAll(ddl, "{{schema}}", prefix + "_" + schema), [])
  }

  function DdlStmts(prefix: string, schema: string, ddls: seq<string>): (stmts: seq<Stmt>)
    ensures |stmts| == |ddls|
    decreases |ddls|
  {
    if ddls == [] then [] else [DdlStmt(prefix, schema, ddls[0])] + DdlStmts(prefix, schema, ddls[1..])
  }

  lemma DdlStmtsStep(prefix: string, schema: string, ddls: seq<string>, j: nat)
    requires j < |ddls|
    ensures DdlStmts(prefix, schema, ddls[j..]) == [DdlStmt(prefix, schema, ddls[j])] + DdlStmts(prefix, schema, ddls[j + 1..])
  {
    assert ddls[j..][0] == ddls[j] && ddls[j..][1..] == ddls[j + 1..];
  }

  /** Everything `create` issues for one schema: 2 + |tables| + |functions| statements. */
  function SchemaPlan(prefix: string, hostname: string, s: SchemaDef): seq<Stmt>
  {
    SchemaStmts(prefix, s.name, hostname) + (DdlStmts(prefix, s.name, s.tables) + DdlStmts(prefix, s.name, s.functions))
  }

  /** Everything `create` issues when nothing fails: the schemas in order. */
  function CreatePlan(prefix: string, hostname: string, schemas: seq<SchemaDef>): seq<Stmt>
    decreases |schemas|
  {
    if schemas == [] then [] else SchemaPlan(prefix, hostname, schemas[0]) + CreatePlan(prefix, hostname, schemas[1..])
  }

  lemma CreatePlanStep(prefix: string, hostname: string, schemas: seq<SchemaDef>, i: nat)
    requires i < |schemas|
    ensures CreatePlan(prefix, hostname, schemas[i..]) ==
              SchemaPlan(prefix, hostname, schemas[i]) + CreatePlan(prefix, hostname, schemas[i + 1..])
  {
    assert schemas[i..][0] == schemas[i] && schemas[i..][1..] == schemas[i + 1..];
  }

  /** One schema of `create` performed after the schemas before it: the walk goes on past it, or the run ended there. */
  lemma CreateStep(plan: seq<Stmt>, m: nat, prefix: string, hostname: string, schemas: seq<SchemaDef>, i: nat,
                   verdict: Verdict, log0: seq<Stmt>, log: seq<Stmt>, log1: seq<Stmt>, err: Option<DbError>)
    returns (m': nat)
    requires i < |schemas|
    requires Walked(plan, m, CreatePlan(prefix, hostname, schemas[i..]), verdict, log0, log)
    requires var part := SchemaPlan(prefix, hostname, schemas[i]);
             Performed(part, log, log1, err, FailFast(part, verdict, log))
    ensures err.Some? ==> Performed(plan, log0, log1, err, FailFast(plan, verdict, log0))
    ensures err.None? ==> Walked(plan, m', CreatePlan(prefix, hostname, schemas[i + 1..]), verdict, log0, log1)
  {
    var part := SchemaPlan(prefix, hostname, schemas[i]);
    CreatePlanStep(prefix, hostname, schemas, i);
    Advance(plan, m, part, CreatePlan(prefix, hostname, schemas[i + 1..]), verdict, log0, log, log1, err);
    m' := m + |part|;
  }

  /** The number of statements `create` issues when nothing fails. */
  function CreateCount(schemas: seq<SchemaDef>): nat
    decreases |schemas|
  {
    if schemas == [] then 0 else 2 + |schemas[0].tables| + |schemas[0].functions| + CreateCount(schemas[1..])
  }

  /** `create` plans 2 + |tables| + |functions| statements per schema. */
  lemma {:induction false} CreatePlanLength(prefix: string, hostname: string, schemas: seq<SchemaDef>)
    ensures |CreatePlan(prefix, hostname, schemas)| == CreateCount(schemas)
    decreases |schemas|
  {
    if schemas != [] {
      CreatePlanLength(prefix, hostname, schemas[1..]);
    }
  }

  // ---------------------------------------------------------------------------
  // The statements of `insert`

  /** What `load` issues for one data set: nothing for no rows, else the one insert. */
  ghost function LoadStmts(prefix: string, data: DataDef): seq<Stmt>
  {
    if |data.rows| == 0 then [] else [Stmt(InsertQuery(prefix, data), InsertParams(data))]
  }

  /** Everything `insert` issues when nothing fails: the data sets in order. */
  ghost function InsertPlan(prefix: string, data: seq<DataDef>): seq<Stmt>
    decreases |data|
  {
    if data == [] then [] else LoadStmts(prefix, data[0]) + InsertPlan(prefix, data[1..])
  }

  lemma InsertPlanStep(prefix: string, data: seq<DataDef>, i: nat)
    requires i < |data|
    ensures InsertPlan(prefix, data[i..]) == LoadStmts(prefix, data[i]) + InsertPlan(prefix, data[i + 1..])
  {
    assert data[i..][0] == data[i] && data[i..][1..] == data[i + 1..];
  }

  /** How many data sets have rows. */
  function NonEmpty(data: seq<DataDef>): nat
    decreases |data|
  {
    if data == [] then 0 else (if |data[0].rows| == 0 then 0 else 1) + NonEmpty(data[1..])
  }

  /** `insert` plans one statement per data set with rows, and none for an empty one. */
  lemma {:induction false} InsertPlanLength(prefix: string, data: seq<DataDef>)
    ensures |InsertPlan(prefix, data)| == NonEmpty(data)
    decreases |data|
  {
    if data != [] {
      InsertPlanLength(prefix, data[1..]);
    }
  }

  /** Every data set of the definition has rows whose fields go to distinct columns. */
  ghost predicate WellFormedDef(def: Def)
  {
    forall i :: 0 <= i < |def.data| ==> WellFormedData(def.data[i])
  }

  // ---------------------------------------------------------------------------
  // The statements of `drop`

  const UpdateQuery := "update zombie.schemas set dropped = now() where name = ? and prefix = ?"

  function DropStmt(prefix: string, name: string): Stmt
  {
    Stmt("drop schema `" + prefix + "_" + name + "`", [])
  }

  function UpdateStmt(prefix: string, name: string): Stmt
  {
    Stmt(UpdateQuery, [Str(name), Str(prefix)])
  }

  /** What one iteration of `drop` issued and the error it set, if any. */
  datatype Attempt = Attempt(issued: seq<Stmt>, err: Option<DbError>)

  /**
   * One iteration of `drop`: the drop statement and, only if it succeeded, the
   * provenance update. Either failure is reported with no parameters.
   */
  function DropOne(prefix: string, name: string, verdict: Verdict, log: seq<Stmt>): Attempt
  {
    var d := DropStmt(prefix, name);
    match verdict(log, d)
    case Some(f) => Attempt([d], Some(NewDbError(f, d.query, [])))
    case None =>
      var u := UpdateStmt(prefix, name);
      match verdict(log + [d], u)
      case Some(f) => Attempt([d, u], Some(NewDbError(f, u.query, [])))
      case None => Attempt([d, u], None)
  }

  /** Statement `k` of log `l` failed with `err`'s cause, `err` carries its query and no parameters, and every later statement succeeded. */
  ghost predicate LastFailure(verdict: Verdict, l: seq<Stmt>, k: int, err: Option<DbError>)
  {
    && 0 <= k < |l|
    && err.Some?
    && verdict(l[..k], l[k]) == Some(err.value.err)
    && err.value == NewDbError(err.value.err, l[k].query, [])
    && Answered(verdict, l, k + 1, |l|)
  }

  /**
   * One iteration of `drop` issues the drop statement, then the update exactly
   * when the drop succeeded; its error is set exactly when one of them failed,
   * and is then that statement's failure.
   */
  lemma DropOneSpec(prefix: string, name: string, verdict: Verdict, log: seq<Stmt>)
    ensures var r := DropOne(prefix, name, verdict, log);
            var l := log + r.issued;
            && 1 <= |r.issued| <= 2 && r.issued[0] == DropStmt(prefix, name)
            && (|r.issued| == 2 <==> verdict(log, DropStmt(prefix, name)).None?)
            && (|r.issued| == 2 ==> r.issued[1] == UpdateStmt(prefix, name))
            && (r.err.None? <==> Answered(verdict, l, |log|, |l|))
            && (r.err.Some? ==> LastFailure(verdict, l, |l| - 1, r.err))
  {
    var d := DropStmt(prefix, name);
    var u := UpdateStmt(prefix, name);
    assert (log + [d])[..|log|] == log && (log + [d, u])[..|log|] == log && (log + [d, u])[..|log| + 1] == log + [d];
    assert (log + [d])[|log|] == d && (log + [d, u])[|log|] == d && (log + [d, u])[|log| + 1] == u;
  }

  /** An iteration of `drop` in which nothing failed issued the drop statement and the update. */
  lemma DropOneAnswered(prefix: string, name: string, verdict: Verdict, log: seq<Stmt>)
    ensures var r := DropOne(prefix, name, verdict, log);
            Answered(verdict, log + r.issued, |log|, |log + r.issued|) ==>
            r.issued == [DropStmt(prefix, name), UpdateStmt(prefix, name)]
  {
    var d := DropStmt(prefix, name);
    assert (log + [d])[..|log|] == log && (log + [d])[|log|] == d;
  }

  /** The later of two errors: `drop` keeps overwriting its result. */
  function Later(e0: Option<DbError>, e1: Option<DbError>): Option<DbError>
  {
    if e1.Some? then e1 else e0
  }

  /** What `drop` ends with: the whole log and the error it returns. */
  datatype Outcome = Outcome(log: seq<Stmt>, err: Option<DbError>)

  /** `drop` from schema `i` on, after `log`, with `err` the error kept so far. */
  function DropFrom(prefix: string, schemas: seq<SchemaDef>, i: nat, verdict: Verdict, log: seq<Stmt>,
                    err: Option<DbError>): Outcome
    requires i <= |schemas|
    decreases |schemas| - i
  {
    if i == |schemas| then Outcome(log, err)
    else
      var one := DropOne(prefix, schemas[i].name, verdict, log);
      DropFrom(prefix, schemas, i + 1, verdict, log + one.issued, Later(err, one.err))
  }

  /** The two statements per schema `drop` issues when nothing fails. */
  function DropPlan(prefix: string, schemas: seq<SchemaDef>): (plan: seq<Stmt>)
    ensures |plan| == 2 * |schemas|
    decreases |schemas|
  {
    if schemas == [] then []
    else [DropStmt(prefix, schemas[0].name), UpdateStmt(prefix, schemas[0].name)] + DropPlan(prefix, schemas[1..])
  }

  /** Answers on a log do not change when the log grows. */
  lemma AnsweredExtend(verdict: Verdict, l: seq<Stmt>, m: seq<Stmt>, lo: int, hi: int)
    requires hi <= |l| <= |m| && m[..|l|] == l
    ensures Answered(verdict, l, lo, hi) <==> Answered(verdict, m, lo, hi)
  {
    forall k | 0 <= lo <= k < hi ensures m[..k] == l[..k] && m[k] == l[k] {
      assert m[..k] == m[..|l|][..k];
    }
  }

  /** `drop` only appends to the log: one or two statements for every schema. */
  lemma {:induction false} DropExtends(prefix: string, schemas: seq<SchemaDef>, i: nat, verdict: Verdict,
                                       log: seq<Stmt>, err: Option<DbError>)
    requires i <= |schemas|
    ensures var r := DropFrom(prefix, schemas, i, verdict, log, err);
            var n := |schemas| - i;
            |log| + n <= |r.log| <= |log| + 2 * n && r.log[..|log|] == log
    decreases |schemas| - i
  {
    if i < |schemas| {
      var one := DropOne(prefix, schemas[i].name, verdict, log);
      var log' := log + one.issued;
      var r := DropFrom(prefix, schemas, i + 1, verdict, log', Later(err, one.err));
      DropExtends(prefix, schemas, i + 1, verdict, log', Later(err, one.err));
      assert r.log[..|log|] == r.log[..|log'|][..|log|];
    } else {
      assert log[..|log|] == log;
    }
  }

  /** `drop` is best-effort: it issues the drop statement of every schema, whatever failed before. */
  lemma {:induction false} DropIssuesAll(prefix: string, schemas: seq<SchemaDef>, i: nat, verdict: Verdict,
                                         log: seq<Stmt>, err: Option<DbError>)
    requires i <= |schemas|
    ensures var r := DropFrom(prefix, schemas, i, verdict, log, err);
            |log| <= |r.log| && forall k :: i <= k < |schemas| ==> DropStmt(prefix, schemas[k].name) in r.log[|log|..]
    decreases |schemas| - i
  {
    if i < |schemas| {
      var one := DropOne(prefix, schemas[i].name, verdict, log);
      var log' := log + one.issued;
      var r := DropFrom(prefix, schemas, i + 1, verdict, log', Later(err, one.err));
      DropIssuesAll(prefix, schemas, i + 1, verdict, log', Later(err, one.err));
      DropExtends(prefix, schemas, i + 1, verdict, log', Later(err, one.err));
      var t := r.log[|log|..];
      assert t == one.issued + r.log[|log'|..] by {
        assert r.log == log' + r.log[|log'|..];
      }
      assert t[0] == DropStmt(prefix, schemas[i].name);
      forall k | i <= k < |schemas| ensures DropStmt(prefix, schemas[k].name) in t {
        if k > i {
          assert DropStmt(prefix, schemas[k].name) in r.log[|log'|..];
        }
      }
    }
  }

  /** The error `drop` ends with is absent exactly when nothing failed and no error was kept from before. */
  lemma {:induction false} DropSucceedsIff(prefix: string, schemas: seq<SchemaDef>, i: nat, verdict: Verdict,
                                           log: seq<Stmt>, err: Option<DbError>)
    requires i <= |schemas|
    ensures var r := DropFrom(prefix, schemas, i, verdict, log, err);
            r.err.None? <==> err.None? && Answered(verdict, r.log, |log|, |r.log|)
    decreases |schemas| - i
  {
    if i < |schemas| {
      var one := DropOne(prefix, schemas[i].name, verdict, log);
      var log' := log + one.issued;
      var r := DropFrom(prefix, schemas, i + 1, verdict, log', Later(err, one.err));
      DropSucceedsIff(prefix, schemas, i + 1, verdict, log', Later(err, one.err));
      DropExtends(prefix, schemas, i + 1, verdict, log', Later(err, one.err));
      DropOneSpec(prefix, schemas[i].name, verdict, log);
      AnsweredExtend(verdict, log', r.log, |log|, |log'|);
      assert Answered(verdict, r.log, |log|, |r.log|) <==>
             Answered(verdict, r.log, |log|, |log'|) && Answered(verdict, r.log, |log'|, |r.log|);
    }
  }

  /** Without any failure `drop` issues exactly its plan: drop and update, schema by schema. */
  lemma {:induction false} DropWithoutFailure(prefix: string, schemas: seq<SchemaDef>, i: nat, verdict: Verdict,
                                              log: seq<Stmt>, err: Option<DbError>)
    requires i <= |schemas|
    ensures var r := DropFrom(prefix, schemas, i, verdict, log, err);
            Answered(verdict, r.log, |log|, |r.log|) ==> r.log == log + DropPlan(prefix, schemas[i..])
    decreases |schemas| - i
  {
    var r := DropFrom(prefix, schemas, i, verdict, log, err);
    if i == |schemas| {
      assert schemas[i..] == [] && log + [] == log;
    } else if Answered(verdict, r.log, |log|, |r.log|) {
      var one := DropOne(prefix, schemas[i].name, verdict, log);
      var log' := log + one.issued;
      DropWithoutFailure(prefix, schemas, i + 1, verdict, log', Later(err, one.err));
      DropExtends(prefix, schemas, i + 1, verdict, log', Later(err, one.err));
      AnsweredExtend(verdict, log', r.log, |log|, |log'|);
      DropOneAnswered(prefix, schemas[i].name, verdict, log);
      assert Answered(verdict, r.log, |log'|, |r.log|);
      assert DropPlan(prefix, schemas[i..]) == one.issued + DropPlan(prefix, schemas[i + 1..]) by {
        assert schemas[i..][0] == schemas[i] && schemas[i..][1..] == schemas[i + 1..];
      }
      assert r.log == log' + DropPlan(prefix, schemas[i + 1..]);
    }
  }

  /**
   * The error `drop` returns is the last failure: the statement that raised it
   * was issued, its cause is that failure, it carries no parameters, and every
   * statement issued after it succeeded. Without any failure it is the error
   * kept from before.
   */
  lemma {:induction false} DropLastError(prefix: string, schemas: seq<SchemaDef>, i: nat, verdict: Verdict,
                                         log: seq<Stmt>, err: Option<DbError>)
    requires i <= |schemas|
    ensures var r := DropFrom(prefix, schemas, i, verdict, log, err);
            || (r.err == err && Answered(verdict, r.log, |log|, |r.log|))
            || exists k :: |log| <= k && LastFailure(verdict, r.log, k, r.err)
    decreases |schemas| - i
  {
    if i < |schemas| {
      var one := DropOne(prefix, schemas[i].name, verdict, log);
      var log' := log + one.issued;
      var r := DropFrom(prefix, schemas, i + 1, verdict, log', Later(err, one.err));
      DropLastError(prefix, schemas, i + 1, verdict, log', Later(err, one.err));
      DropExtends(prefix, schemas, i + 1, verdict, log', Later(err, one.err));
      DropOneSpec(prefix, schemas[i].name, verdict, log);
      DropChain(verdict, log, one, r.log, err, r.err);
    }
  }

  /** The last failure after one iteration of `drop` is the last failure of the later ones, or else that iteration's own. */
  lemma DropChain(verdict: Verdict, log: seq<Stmt>, one: Attempt, m: seq<Stmt>, err: Option<DbError>, e: Option<DbError>)
    requires |log + one.issued| <= |m| && m[..|log + one.issued|] == log + one.issued
    requires 1 <= |one.issued|
    requires one.err.None? <==> Answered(verdict, log + one.issued, |log|, |log + one.issued|)
    requires one.err.Some? ==> LastFailure(verdict, log + one.issued, |log + one.issued| - 1, one.err)
    requires || (e == Later(err, one.err) && Answered(verdict, m, |log + one.issued|, |m|))
             || exists k :: |log + one.issued| <= k && LastFailure(verdict, m, k, e)
    ensures || (e == err && Answered(verdict, m, |log|, |m|))
            || exists k :: |log| <= k && LastFailure(verdict, m, k, e)
  {
    if exists k :: |log + one.issued| <= k && LastFailure(verdict, m, k, e) {
      var k :| |log + one.issued| <= k && LastFailure(verdict, m, k, e);
      assert |log| <= k;
    } else {
      DropStepLast(verdict, log, one, m, err);
    }
  }

  /** One iteration of `drop` followed only by successes leaves its own failure, if any, as the last one. */
  lemma DropStepLast(verdict: Verdict, log: seq<Stmt>, one: Attempt, m: seq<Stmt>, err: Option<DbError>)
    requires |log + one.issued| <= |m| && m[..|log + one.issued|] == log + one.issued
    requires 1 <= |one.issued|
    requires one.err.None? <==> Answered(verdict, log + one.issued, |log|, |log + one.issued|)
    requires one.err.Some? ==> LastFailure(verdict, log + one.issued, |log + one.issued| - 1, one.err)
    requires Answered(verdict, m, |log + one.issued|, |m|)
    ensures || (Later(err, one.err) == err && Answered(verdict, m, |log|, |m|))
            || exists k :: |log| <= k && LastFailure(verdict, m, k, Later(err, one.err))
  {
    var l := log + one.issued;
    if one.err.Some? {
      var k := |l| - 1;
      assert m[..k] == l[..k] by { assert m[..k] == m[..|l|][..k]; }
      assert m[k] == l[k];
      assert LastFailure(verdict, m, k, Later(err, one.err));
    } else {
      AnsweredExtend(verdict, l, m, |log|, |l|);
      assert Answered(verdict, m, |log|, |m|);
    }
  }

  // ---------------------------------------------------------------------------
  // The fixture runner

  /**
   * `fixr` (db.go) and `Fixr` (fixrupr.go), one type: a connection, the loaded
   * definition, the run's prefix and the tracking schema name. `host` stands for
   * what `os.Hostname` reports while the runner works.
   */
  class Fixr {
    const conn: Conn
    const def: Def
    const prefix: string
    const schemaName: string
    const host: Option<string>

    constructor (conn: Conn, def: Def, prefix: string, schemaName: string, host: Option<string>)
      ensures this.conn == conn && this.def == def && this.prefix == prefix
      ensures this.schemaName == schemaName && this.host == host
    {
      this.conn := conn;
      this.def := def;
      this.prefix := prefix;
      this.schemaName := schemaName;
      this.host := host;
    }

    /** `GetPrefix`: the prefix the runner was built with. */
    function GetPrefix(): (p: string)
      ensures p == prefix
    {
      prefix
    }

    /** `schema`: the provenance insert, then, if it succeeded, the `create schema` statement. */
    method Schema(name: string) returns (err: Option<DbError>)
      modifies conn
      ensures var plan := SchemaStmts(prefix, name, RecordedHostname(host));
              Performed(plan, old(conn.log), conn.log, err, FailFast(plan, conn.verdict, old(conn.log)))
    {
      ghost var log0 := conn.log;
      ghost var plan := SchemaStmts(prefix, name, RecordedHostname(host));
      assert plan[..0] == [] && log0 + [] == log0 && plan[..1] == [plan[0]] && plan[..2] == plan;
      var hostname := if host.Some? then host.value else "<unknown>";
      var query := "insert into zombie.schemas (name, prefix, hostname) values (?, ?, ?)";
      var e := conn.Exec(query, [Str(name), Str(prefix), Str(hostname)]);
      if e.Some? {
        err := Some(NewDbError(e.value, query, [Str(name), Str(prefix), Str(hostname)]));
        assert FailFastFrom(plan, 0, conn.verdict, log0) == Run(1, err);
        return;
      }
      assert FailFastFrom(plan, 0, conn.verdict, log0) == FailFastFrom(plan, 1, conn.verdict, log0);
      query := "create schema `" + prefix + "_" + name + "`";
      e := conn.Exec(query, []);
      if e.Some? {
        err := Some(NewDbError(e.value, query, []));
        assert FailFastFrom(plan, 1, conn.verdict, log0) == Run(2, err);
      } else {
        err := None;
        assert FailFastFrom(plan, 1, conn.verdict, log0) == Run(2, None);
      }
    }

    /** `exec`: one DDL statement with the schema placeholder filled in. */
    method Exec(schema: string, ddl: string) returns (err: Option<DbError>)
      modifies conn
      ensures var plan := [DdlStmt(prefix, schema, ddl)];
              Performed(plan, old(conn.log), conn.log, err, FailFast(plan, conn.verdict, old(conn.log)))
    {
      ghost var plan := [DdlStmt(prefix, schema, ddl)];
      assert plan[..0] == [] && conn.log + [] == conn.log && plan[..1] == plan;
      ghost var log0 := conn.log;
      var query := ReplaceAll(ddl, "{{schema}}", prefix + "_" + schema);
      var e := conn.Exec(query, []);
      if e.Some? {
        err := Some(NewDbError(e.value, query, []));
        assert FailFastFrom(plan, 0, conn.verdict, log0) == Run(1, err);
      } else {
        err := None;
        assert FailFastFrom(plan, 0, conn.verdict, log0) == FailFastFrom(plan, 1, conn.verdict, log0);
      }
    }

    /** `table`: creates a table through `exec`. */
    method Table(schema: string, ddl: string) returns (err: Option<DbError>)
      modifies conn
      ensures var plan := [DdlStmt(prefix, schema, ddl)];
              Performed(plan, old(conn.log), conn.log, err, FailFast(plan, conn.verdict, old(conn.log)))
    {
      err := Exec(schema, ddl);
    }

    /** `function`: creates a stored function through `exec`. */
    method Function(schema: string, ddl: string) returns (err: Option<DbError>)
      modifies conn
      ensures var plan := [DdlStmt(prefix, schema, ddl)];
              Performed(plan, old(conn.log), conn.log, err, FailFast(plan, conn.verdict, old(conn.log)))
    {
      err := Exec(schema, ddl);
    }

    /** The table loop of `create` for one schema: each DDL through `table`, stopping at the first failure. */
    method Tables(schema: string, ddls: seq<string>) returns (err: Option<DbError>)
      modifies conn
      ensures var plan := DdlStmts(prefix, schema, ddls);
              Performed(plan, old(conn.log), conn.log, err, FailFast(plan, conn.verdict, old(conn.log)))
    {
      ghost var log0, v := conn.log, conn.verdict;
      ghost var plan := DdlStmts(prefix, schema, ddls);
      ghost var m: nat := 0;
      WalkStart(plan, v, log0);
      assert ddls[0..] == ddls;
      err := None;
      for j := 0 to |ddls|
        invariant Walked(plan, m, DdlStmts(prefix, schema, ddls[j..]), v, log0, conn.log) && err.None?
      {
        ghost var log := conn.log;
        DdlStmtsStep(prefix, schema, ddls, j);
        err := Table(schema, ddls[j]);
        Advance(plan, m, [DdlStmt(prefix, schema, ddls[j])], DdlStmts(prefix, schema, ddls[j + 1..]),
                v, log0, log, conn.log, err);
        if err.Some? {
          return;
        }
        m := m + 1;
      }
      assert ddls[|ddls|..] == [];
      WalkEnd(plan, m, v, log0, conn.log);
    }

    /** The function loop of `create` for one schema: each DDL through `function`, stopping at the first failure. */
    method Functions(schema: string, ddls: seq<string>) returns (err: Option<DbError>)
      modifies conn
      ensures var plan := DdlStmts(prefix, schema, ddls);
              Performed(plan, old(conn.log), conn.log, err, FailFast(plan, conn.verdict, old(conn.log)))
    {
      ghost var log0, v := conn.log, conn.verdict;
      ghost var plan := DdlStmts(prefix, schema, ddls);
      ghost var m: nat := 0;
      WalkStart(plan, v, log0);
      assert ddls[0..] == ddls;
      err := None;
      for j := 0 to |ddls|
        invariant Walked(plan, m, DdlStmts(prefix, schema, ddls[j..]), v, log0, conn.log) && err.None?
      {
        ghost var log := conn.log;
        DdlStmtsStep(prefix, schema, ddls, j);
        err := Function(schema, ddls[j]);
        Advance(plan, m, [DdlStmt(prefix, schema, ddls[j])], DdlStmts(prefix, schema, ddls[j + 1..]),
                v, log0, log, conn.log, err);
        if err.Some? {
          return;
        }
        m := m + 1;
      }
      assert ddls[|ddls|..] == [];
      WalkEnd(plan, m, v, log0, conn.log);
    }

    /** The body of `create`'s loop for one schema: `schema`, then its tables, then its functions. */
    method CreateSchema(schema: SchemaDef) returns (err: Option<DbError>)
      modifies conn
      ensures var plan := SchemaPlan(prefix, RecordedHostname(host), schema);
              Performed(plan, old(conn.log), conn.log, err, FailFast(plan, conn.verdict, old(conn.log)))
    {
      ghost var log0 := conn.log;
      ghost var head := SchemaStmts(prefix, schema.name, RecordedHostname(host));
      ghost var tables := DdlStmts(prefix, schema.name, schema.tables);
      ghost var functions := DdlStmts(prefix, schema.name, schema.functions);
      err := Schema(schema.name);
      ghost var log1 := conn.log;
      if err.Some? {
        Sequenced(head, tables + functions, conn.verdict, log0, log1, log1, err, err);
        return;
      }
      err := Tables(schema.name, schema.tables);
      ghost var log2 := conn.log;
      if err.Some? {
        Sequenced(tables, functions, conn.verdict, log1, log2, log2, err, err);
        Sequenced(head, tables + functions, conn.verdict, log0, log1, log2, None, err);
        return;
      }
      err := Functions(schema.name, schema.functions);
      Sequenced(tables, functions, conn.verdict, log1, log2, conn.log, None, err);
      Sequenced(head, tables + functions, conn.verdict, log0, log1, conn.log, None, err);
    }

    /** `create`: every schema, its tables, its functions, stopping at the first failure. */
    method Create() returns (err: Option<DbError>)
      modifies conn
      ensures var plan := CreatePlan(prefix, RecordedHostname(host), def.schemas);
              Performed(plan, old(conn.log), conn.log, err, FailFast(plan, conn.verdict, old(conn.log)))
    {
      ghost var log0, v := conn.log, conn.verdict;
      ghost var hostname := RecordedHostname(host);
      ghost var plan := CreatePlan(prefix, hostname, def.schemas);
      ghost var m: nat := 0;
      WalkStart(plan, v, log0);
      assert def.schemas[0..] == def.schemas;
      err := None;
      for i := 0 to |def.schemas|
        invariant Walked(plan, m, CreatePlan(prefix, hostname, def.schemas[i..]), v, log0, conn.log) && err.None?
      {
        ghost var log := conn.log;
        err := CreateSchema(def.schemas[i]);
        m := CreateStep(plan, m, prefix, hostname, def.schemas, i, v, log0, log, conn.log, err);
        if err.Some? {
          return;
        }
      }
      assert def.schemas[|def.schemas|..] == [];
      WalkEnd(plan, m, v, log0, conn.log);
    }

    /** `load`: nothing for a data set without rows, else its one multi-row insert. */
    method Load(prefix: string, data: DataDef) returns (err: Option<DbError>)
      requires WellFormedData(data)
      modifies conn
      ensures var plan := LoadStmts(prefix, data);
              Performed(plan, old(conn.log), conn.log, err, FailFast(plan, conn.verdict, old(conn.log)))
      ensures |data.rows| == 0 ==> conn.log == old(conn.log) && err.None?
    {
      ghost var plan := LoadStmts(prefix, data);
      assert plan[..0] == [] && conn.log + [] == conn.log;
      if |data.rows| == 0 {
        return None;
      }
      assert plan[..1] == plan;
      ghost var log0 := conn.log;
      var query, parameters := BuildInsert(prefix, data);
      var e := conn.Exec(query, parameters);
      if e.Some? {
        err := Some(NewDbError(e.value, query, parameters));
        assert FailFastFrom(plan, 0, conn.verdict, log0) == Run(1, err);
      } else {
        err := None;
        assert FailFastFrom(plan, 0, conn.verdict, log0) == FailFastFrom(plan, 1, conn.verdict, log0);
      }
    }

    /** `insert`: every data set in order, stopping at the first failure. */
    method Insert() returns (err: Option<DbError>)
      requires WellFormedDef(def)
      modifies conn
      ensures var plan := InsertPlan(prefix, def.data);
              Performed(plan, old(conn.log), conn.log, err, FailFast(plan, conn.verdict, old(conn.log)))
    {
      ghost var log0, v := conn.log, conn.verdict;
      ghost var plan := InsertPlan(prefix, def.data);
      ghost var m: nat := 0;
      WalkStart(plan, v, log0);
      assert def.data[0..] == def.data;
      err := None;
      for i := 0 to |def.data|
        invariant Walked(plan, m, InsertPlan(prefix, def.data[i..]), v, log0, conn.log) && err.None?
      {
        ghost var log := conn.log;
        ghost var part := LoadStmts(prefix, def.data[i]);
        InsertPlanStep(prefix, def.data, i);
        err := Load(prefix, def.data[i]);
        Advance(plan, m, part, InsertPlan(prefix, def.data[i + 1..]), v, log0, log, conn.log, err);
        if err.Some? {
          return;
        }
        m := m + |part|;
      }
      assert def.data[|def.data|..] == [];
      WalkEnd(plan, m, v, log0, conn.log);
    }

    /** `drop`: every schema, whatever failed before; the last error is returned. */
    method Drop() returns (err: Option<DbError>)
      modifies conn
      ensures var r := DropFrom(prefix, def.schemas, 0, conn.verdict, old(conn.log), None);
              conn.log == r.log && err == r.err
    {
      ghost var log0 := conn.log;
      err := None;
      for i := 0 to |def.schemas|
        invariant DropFrom(prefix, def.schemas, 0, conn.verdict, log0, None) ==
                    DropFrom(prefix, def.schemas, i, conn.verdict, conn.log, err)
      {
        var schema := def.schemas[i];
        ghost var before, kept := conn.log, err;
        ghost var one := DropOne(prefix, schema.name, conn.verdict, before);
        var query := "drop schema `" + prefix + "_" + schema.name + "`";
        var e := conn.Exec(query, []);
        if e.Some? {
          err := Some(NewDbError(e.value, query, []));
        } else {
          query := "update zombie.schemas set dropped = now() where name = ? and prefix = ?";
          var e' := conn.Exec(query, [Str(schema.name), Str(prefix)]);
          if e'.Some? {
            err := Some(NewDbError(e'.value, query, []));
          }
        }
        assert conn.log == before + one.issued && err == Later(kept, one.err);
      }
    }

    /** `SetUp`: `create`, then `insert` only if `create` succeeded. */
    method SetUp() returns (err: Option<DbError>)
      requires WellFormedDef(def)
      modifies conn
      ensures var plan := CreatePlan(prefix, RecordedHostname(host), def.schemas) + InsertPlan(prefix, def.data);
              Performed(plan, old(conn.log), conn.log, err, FailFast(plan, conn.verdict, old(conn.log)))
    {
      ghost var log0 := conn.log;
      ghost var creates := CreatePlan(prefix, RecordedHostname(host), def.schemas);
      ghost var inserts := InsertPlan(prefix, def.data);
      err := Create();
      ghost var log1 := conn.log;
      if err.Some? {
        Sequenced(creates, inserts, conn.verdict, log0, log1, log1, err, err);
        return;
      }
      err := Insert();
      Sequenced(creates, inserts, conn.verdict, log0, log1, conn.log, None, err);
    }

    /** `TearDown`: exactly what `drop` does and returns. */
    method TearDown() returns (err: Option<DbError>)
      modifies conn
      ensures var r := DropFrom(prefix, def.schemas, 0, conn.verdict, old(conn.log), None);
              conn.log == r.log && err == r.err
    {
      err := Drop();
    }
  }
}
