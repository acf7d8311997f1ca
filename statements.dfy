/** The database's table of prepared statements: a slice indexed by
    statement number, grown on demand, with nil for slots not yet
    prepared. Preparing a query is the SQL driver's business and is a
    parameter here. */
module Statements {
  import opened Wrappers

  /** A prepared statement, known only by the handle the driver gave it. */
  datatype Stmt = Stmt(handle: nat)

  /** The statement numbers (an iota enumeration). */
  const StmtRepoGet: int := 0
  const StmtRepoInsert: int := 1

  /** The two queries prepared for the repos table, as the source writes
      them (the line breaks and tabs included). */
  const RepoGetQuery: string :=
    "\n\t\tSELECT id, org_name, repo_name, last_retrieval\n\t\tFROM repos\n\t\tWHERE id = $1\n\t"
  const RepoInsertQuery: string :=
    "\n\t\tINSERT INTO repos (org_name, repo_name, last_retrieval)\n\t\tVALUES ($1, $2, $3)\n\t\tRETURNING id\n\t"

  const NotPrepared := "invalid statement number in getStatement, statement not prepared"

  function Max(a: int, b: int): int {
    if a < b then b else a
  }

  /** What getStatement does as written: its guard only rejects numbers
      above the length, so the length itself and negative numbers reach
      the slice index, which is out of range for them. */
  datatype Lookup = Found(stmt: Option<Stmt>) | Rejected(msg: string) | IndexOutOfRange

  function GetStatementAsWritten(stmts: seq<Option<Stmt>>, sv: int): (r: Lookup)
    ensures r.Found? ==> 0 <= sv < |stmts| && r.stmt == stmts[sv]
    ensures r.Rejected? <==> sv > |stmts|
  {
    if sv > |stmts| then Rejected(NotPrepared)
    else if 0 <= sv < |stmts| then Found(stmts[sv])
    else IndexOutOfRange
  }

  /** The guard lets the first number past the end through: on a fresh
      table, asking for stmtRepoInsert before it is prepared indexes out
      of range instead of failing; so does any negative number. */
  lemma GetStatementGuardTooWeak(stmts: seq<Option<Stmt>>, sv: int)
    requires sv == |stmts| || sv < 0
    ensures GetStatementAsWritten(stmts, sv) == IndexOutOfRange
    ensures GetStatementAsWritten([None], StmtRepoInsert) == IndexOutOfRange
  {
  }

  /** The corrected lookup, as the error message intends: every number that
      does not name a slot is refused. */
  function GetStatementChecked(stmts: seq<Option<Stmt>>, sv: int): (r: Result<Option<Stmt>>)
    ensures r.Ok? <==> 0 <= sv < |stmts|
    ensures r.Ok? ==> r.value == stmts[sv]
    ensures r.Err? ==> r.msg == NotPrepared
  {
    if sv < 0 || sv >= |stmts| then Err(NotPrepared) else Ok(stmts[sv])
  }

  /** The correction changes nothing where the code as written returns
      normally. */
  lemma CheckedAgreesWhereDefined(stmts: seq<Option<Stmt>>, sv: int)
    ensures GetStatementAsWritten(stmts, sv).Found? ==>
              GetStatementChecked(stmts, sv) == Ok(GetStatementAsWritten(stmts, sv).stmt)
    ensures GetStatementAsWritten(stmts, sv).Rejected? ==> GetStatementChecked(stmts, sv) == Err(NotPrepared)
    ensures GetStatementAsWritten(stmts, sv) == IndexOutOfRange <==> sv == |stmts| || sv < 0
  {
  }

  /** The table after a successful addStatement: grown with nil slots
      until `sv` is an index, slot `sv` filled, every other slot kept. */
  function WithStatement(stmts: seq<Option<Stmt>>, sv: nat, st: Stmt): (r: seq<Option<Stmt>>)
    ensures |r| == Max(|stmts|, sv + 1)
    ensures r[sv] == Some(st)
    ensures forall i :: 0 <= i < |stmts| && i != sv ==> r[i] == stmts[i]
    ensures forall i :: |stmts| <= i < |r| && i != sv ==> r[i].None?
  {
    if sv < |stmts| then stmts[sv := Some(st)]
    else stmts + seq(sv - |stmts|, _ => None) + [Some(st)]
  }

  /** Preparing the two repos statements on a fresh table makes both
      fetchable, and nothing past them. */
  lemma PreparedFreshTable(get: Stmt, insert: Stmt)
    ensures var t := WithStatement(WithStatement([None], StmtRepoGet, get), StmtRepoInsert, insert);
            && GetStatementChecked(t, StmtRepoGet) == Ok(Some(get))
            && GetStatementChecked(t, StmtRepoInsert) == Ok(Some(insert))
            && GetStatementChecked(t, 2).Err?
  {
  }

  /** The statements part of `DB`. */
  class DB {
    var stmts: seq<Option<Stmt>>

    /** InitDB: one empty slot. */
    constructor InitDB()
      ensures stmts == [None]
    {
      stmts := [None];
    }

    /** getStatement, with the bound check corrected. */
    method GetStatement(sv: int) returns (r: Result<Option<Stmt>>)
      ensures r == GetStatementChecked(stmts, sv)
    {
      if sv < 0 || sv >= |stmts| {
        return Err(NotPrepared);
      }
      return Ok(stmts[sv]);
    }

    /** addStatement: prepare the query, grow the slice with nil slots
        until `sv` is an index, and fill slot `sv`. */
    method AddStatement(sv: int, s: string, prepare: string -> Result<Stmt>) returns (err: Outcome)
      modifies this
      ensures sv < 0 ==> err == Fail("negative statement number in addStatement") && stmts == old(stmts)
      ensures sv >= 0 && prepare(s).Err? ==> err == Fail(prepare(s).msg) && stmts == old(stmts)
      ensures sv >= 0 && prepare(s).Ok? ==>
                && err == Pass
                && |stmts| == Max(|old(stmts)|, sv + 1)
                && stmts[sv] == Some(prepare(s).value)
                && (forall i :: 0 <= i < |old(stmts)| && i != sv ==> stmts[i] == old(stmts)[i])
                && (forall i :: |old(stmts)| <= i < |stmts| && i != sv ==> stmts[i].None?)
      ensures sv >= 0 && prepare(s).Ok? ==> stmts == WithStatement(old(stmts), sv, prepare(s).value)
    {
      if sv < 0 {
        return Fail("negative statement number in addStatement");
      }
      var prepared := prepare(s);
      if prepared.Err? {
        return Fail(prepared.msg);
      }
      var i := |stmts|;
      while i <= sv
        invariant |old(stmts)| <= i <= Max(|old(stmts)|, sv + 1)
        invariant |stmts| == i
        invariant stmts[..|old(stmts)|] == old(stmts)
        invariant forall j :: |old(stmts)| <= j < i ==> stmts[j].None?
      {
        stmts := stmts + [None];
        i := i + 1;
      }
      stmts := stmts[sv := Some(prepared.value)];
      assert |stmts| == |WithStatement(old(stmts), sv, prepared.value)|;
      assert forall k :: 0 <= k < |stmts| ==> stmts[k] == WithStatement(old(stmts), sv, prepared.value)[k];
      return Pass;
    }

    /** prepareStatementsRepos: slot 0 then slot 1, stopping at the first
        failure. */
    method PrepareStatementsRepos(prepare: string -> Result<Stmt>) returns (err: Outcome)
      modifies this
      ensures err.Pass? <==> prepare(RepoGetQuery).Ok? && prepare(RepoInsertQuery).Ok?
      ensures prepare(RepoGetQuery).Err? ==> err == Fail(prepare(RepoGetQuery).msg) && stmts == old(stmts)
      ensures prepare(RepoGetQuery).Ok? && prepare(RepoInsertQuery).Err? ==>
                && err == Fail(prepare(RepoInsertQuery).msg)
                && stmts == WithStatement(old(stmts), StmtRepoGet, prepare(RepoGetQuery).value)
      ensures err.Pass? ==>
                stmts == WithStatement(WithStatement(old(stmts), StmtRepoGet, prepare(RepoGetQuery).value),
                                       StmtRepoInsert, prepare(RepoInsertQuery).value)
      ensures err.Pass? ==>
                && |stmts| == Max(|old(stmts)|, 2)
                && stmts[StmtRepoGet] == Some(prepare(RepoGetQuery).value)
                && stmts[StmtRepoInsert] == Some(prepare(RepoInsertQuery).value)
                && (forall i :: 2 <= i < |old(stmts)| ==> stmts[i] == old(stmts)[i])
    {
      err := AddStatement(StmtRepoGet, RepoGetQuery, prepare);
      if err.Fail? {
        return;
      }
      err := AddStatement(StmtRepoInsert, RepoInsertQuery, prepare);
    }

    /** prepareStatements: the per-table preparations, of which there is
        one. */
    method PrepareStatements(prepare: string -> Result<Stmt>) returns (err: Outcome)
      modifies this
      ensures err.Pass? <==> prepare(RepoGetQuery).Ok? && prepare(RepoInsertQuery).Ok?
      ensures prepare(RepoGetQuery).Err? ==> err == Fail(prepare(RepoGetQuery).msg) && stmts == old(stmts)
      ensures prepare(RepoGetQuery).Ok? && prepare(RepoInsertQuery).Err? ==>
                && err == Fail(prepare(RepoInsertQuery).msg)
                && stmts == WithStatement(old(stmts), StmtRepoGet, prepare(RepoGetQuery).value)
      ensures err.Pass? ==>
                stmts == WithStatement(WithStatement(old(stmts), StmtRepoGet, prepare(RepoGetQuery).value),
                                       StmtRepoInsert, prepare(RepoInsertQuery).value)
      ensures err.Pass? ==>
                && |stmts| == Max(|old(stmts)|, 2)
                && stmts[StmtRepoGet] == Some(prepare(RepoGetQuery).value)
                && stmts[StmtRepoInsert] == Some(prepare(RepoInsertQuery).value)
    {
      err := PrepareStatementsRepos(prepare);
    }
  }
}
