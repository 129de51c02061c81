/**
 * The V8 profiling arguments a freshly forked worker is started with. When the
 * scheduler's own process runs with `--prof`, every worker gets its own log file so
 * that the workers' profiles do not overwrite each other.
 */
module ProfArgs {
  import opened Wrappers
  import opened JsText

  const Prof := "--prof"
  const LogFilePrefix := "--logfile="
  const DefaultLogFile := "--logfile=v8.log"

  /** JavaScript truthiness of an optional string: absent and "" are both falsy. */
  predicate Truthy(s: Option<string>) {
    s.Some? && s.value != ""
  }

  /**
   * What is appended to the log-file name: `.<logId>.<poolCount>` when the pool has a
   * truthy log id, otherwise `.<globalCount>`.
   */
  function LogSuffix(logId: Option<string>, poolCount: nat, globalCount: nat): string {
    if Truthy(logId) then "." + logId.value + "." + NatToString(poolCount)
    else "." + NatToString(globalCount)
  }

  /**
   * The process arguments for a new worker, given the scheduler process's own arguments,
   * the pool's log id and the pool-local and process-wide fork counters after this fork.
   */
  function WorkerExecArgv(execArgv: seq<string>, logId: Option<string>, poolCount: nat, globalCount: nat): seq<string> {
    if Prof !in execArgv then execArgv
    else
      var logFile :=
        match FindPrefixed(execArgv, LogFilePrefix)
        case Some(i) => execArgv[i]
        case None => DefaultLogFile;
      var location := IndexOf(execArgv, logFile);
      var renamed := logFile + LogSuffix(logId, poolCount, globalCount);
      if location >= 0 then execArgv[location := renamed] else execArgv + [renamed]
  }

  /** Without `--prof` the worker gets exactly the scheduler's arguments. */
  lemma UnprofiledArgsUnchanged(execArgv: seq<string>, logId: Option<string>, poolCount: nat, globalCount: nat)
    requires Prof !in execArgv
    ensures WorkerExecArgv(execArgv, logId, poolCount, globalCount) == execArgv
  {
  }

  /**
   * With `--prof` and a `--logfile=` argument, the first such argument is renamed in place:
   * same length, that position gets the suffix, every other position is untouched.
   * (The `indexOf` lookup of the found argument lands on the very position `_.find` chose.)
   */
  lemma LogFileRenamedInPlace(execArgv: seq<string>, logId: Option<string>, poolCount: nat, globalCount: nat, i: nat)
    requires Prof in execArgv
    requires i < |execArgv| && StartsWith(execArgv[i], LogFilePrefix)
    requires forall j :: 0 <= j < i ==> !StartsWith(execArgv[j], LogFilePrefix)
    ensures var r := WorkerExecArgv(execArgv, logId, poolCount, globalCount);
      |r| == |execArgv|
      && r[i] == execArgv[i] + LogSuffix(logId, poolCount, globalCount)
      && forall j :: 0 <= j < |execArgv| && j != i ==> r[j] == execArgv[j]
  {
    var found := FindPrefixed(execArgv, LogFilePrefix);
    assert found == Some(i);
    var location := IndexOf(execArgv, execArgv[i]);
    assert StartsWith(execArgv[location], LogFilePrefix);
  }

  /** With `--prof` and no `--logfile=` argument, a suffixed `--logfile=v8.log` is appended. */
  lemma DefaultLogFileAppended(execArgv: seq<string>, logId: Option<string>, poolCount: nat, globalCount: nat)
    requires Prof in execArgv
    requires forall j :: 0 <= j < |execArgv| ==> !StartsWith(execArgv[j], LogFilePrefix)
    ensures WorkerExecArgv(execArgv, logId, poolCount, globalCount)
         == execArgv + [DefaultLogFile + LogSuffix(logId, poolCount, globalCount)]
  {
    assert StartsWith(DefaultLogFile, LogFilePrefix);
    assert forall j :: 0 <= j < |execArgv| ==> execArgv[j] != DefaultLogFile;
  }

  /**
   * Two forks of one pool with a log id get different log-file names, and so do two
   * forks without one, as long as their counters differ.
   */
  lemma SuffixesDistinguishForks(logId: Option<string>, p1: nat, g1: nat, p2: nat, g2: nat)
    requires if Truthy(logId) then p1 != p2 else g1 != g2
    ensures LogSuffix(logId, p1, g1) != LogSuffix(logId, p2, g2)
  {
    if Truthy(logId) {
      var pre := "." + logId.value + ".";
      assert LogSuffix(logId, p1, g1) == pre + NatToString(p1);
      assert LogSuffix(logId, p2, g2) == pre + NatToString(p2);
      if LogSuffix(logId, p1, g1) == LogSuffix(logId, p2, g2) {
        assert NatToString(p1) == (pre + NatToString(p1))[|pre|..];
        assert NatToString(p2) == (pre + NatToString(p2))[|pre|..];
        NatToStringInjective(p1, p2);
      }
    } else {
      if LogSuffix(logId, p1, g1) == LogSuffix(logId, p2, g2) {
        assert NatToString(g1) == LogSuffix(logId, p1, g1)[1..];
        assert NatToString(g2) == LogSuffix(logId, p2, g2)[1..];
        NatToStringInjective(g1, g2);
      }
    }
  }
}
