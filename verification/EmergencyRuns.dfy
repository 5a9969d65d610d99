/** Exactly-once merging: every interleaving of emergency appends, ordinary audit appends and daemon restarts. */
module EmergencyRuns {
  import opened HashChain
  import opened EmergencyLogs

  /** The entries of an intact log file, the audit table, and the marks of merged entries. */
  datatype Logs = Logs(log: seq<Entry>, audit: seq<Entry>, marks: set<string>)

  const EMPTY := Logs([], [], {})

  datatype LogStep =
    | LogAppend(actor: string, action: string, details: string, now: int)
    | AuditAppend(actor: string, action: string, details: string, now: int)
    | Restart(clock: nat -> int)

  /** No other writer of the audit log uses the merge's actor and action. */
  predicate Ordinary(step: LogStep) {
    step.AuditAppend? ==> !(step.actor == EMERGENCY && step.action == EMERGENCY)
  }

  ghost function Next(g: Digest, wrap: Wrap, s: Logs, step: LogStep): Logs {
    match step
    case LogAppend(actor, action, details, now) =>
      s.(log := s.log + [NextEntry(g, s.log, actor, action, details, now)])
    case AuditAppend(actor, action, details, now) =>
      s.(audit := s.audit + [NextEntry(g, s.audit, actor, action, details, now)])
    case Restart(clock) =>
      var news := Unmerged(s.log, s.marks);
      if SameHashTwice(news) then s
      else s.(audit := Merged(g, wrap, s.audit, news, clock), marks := s.marks + Hashes(news))
  }

  ghost function LogRun(g: Digest, wrap: Wrap, s: Logs, steps: seq<LogStep>): Logs {
    if steps == [] then s else Next(g, wrap, LogRun(g, wrap, s, steps[..|steps| - 1]), steps[|steps| - 1])
  }

  /** The details of the audit rows that came from the emergency log, in table order. */
  function EmergencyDetails(audit: seq<Entry>): seq<string> {
    if audit == [] then []
    else
      var last := audit[|audit| - 1];
      EmergencyDetails(audit[..|audit| - 1])
      + (if last.actor == EMERGENCY && last.action == EMERGENCY then [last.details] else [])
  }

  function WrapAll(wrap: Wrap, es: seq<Entry>): seq<string> {
    seq(|es|, i requires 0 <= i < |es| => wrap(es[i]))
  }

  /** The first `k` entries are merged, once each and in order, and no other. */
  predicate MergedUpTo(wrap: Wrap, s: Logs, k: nat) {
    && k <= |s.log|
    && s.marks == Hashes(s.log[..k])
    && EmergencyDetails(s.audit) == WrapAll(wrap, s.log[..k])
  }

  ghost predicate LogsInv(g: Digest, wrap: Wrap, s: Logs) {
    && Chained(g, s.log) && Chained(g, s.audit)
    && exists k: nat :: MergedUpTo(wrap, s, k)
  }

  lemma DetailsAppend(audit: seq<Entry>, e: Entry)
    ensures EmergencyDetails(audit + [e])
         == EmergencyDetails(audit) + (if e.actor == EMERGENCY && e.action == EMERGENCY then [e.details] else [])
  {
    assert (audit + [e])[..|audit|] == audit;
  }

  lemma MarkedExactly(g: Digest, log: seq<Entry>, k: nat, i: nat)
    requires Sound(g) && Chained(g, log) && k <= |log| && i < |log|
    ensures log[i].hash in Hashes(log[..k]) <==> i < k
  {
    if i < k {
      assert log[..k][i] == log[i];
    } else if log[i].hash in Hashes(log[..k]) {
      var j :| 0 <= j < k && log[..k][j].hash == log[i].hash;
      HashesDiffer(g, log, j, i);
    }
  }

  lemma TakeTake(log: seq<Entry>, m: nat, n: nat)
    requires m <= n <= |log|
    ensures log[..n][..m] == log[..m]
  {
  }

  /** What is left to merge is the tail of the log. */
  lemma {:induction false} UnmergedIsTail(g: Digest, log: seq<Entry>, k: nat, n: nat)
    requires Sound(g) && Chained(g, log) && k <= n <= |log|
    ensures Unmerged(log[..n], Hashes(log[..k])) == log[k..n]
    decreases n
  {
    if n > 0 {
      MarkedExactly(g, log, k, n - 1);
      TakeTake(log, n - 1, n);
      if k < n {
        UnmergedIsTail(g, log, k, n - 1);
        assert log[k..n - 1] + [log[n - 1]] == log[k..n];
      } else {
        AllMarked(g, log, k, n);
      }
    }
  }

  lemma {:induction false} AllMarked(g: Digest, log: seq<Entry>, k: nat, n: nat)
    requires Sound(g) && Chained(g, log) && n <= k <= |log|
    ensures Unmerged(log[..n], Hashes(log[..k])) == []
  {
    if n > 0 {
      MarkedExactly(g, log, k, n - 1);
      TakeTake(log, n - 1, n);
      AllMarked(g, log, k, n - 1);
    }
  }

  lemma TailHasNoRepeats(g: Digest, log: seq<Entry>, k: nat)
    requires Sound(g) && Chained(g, log) && k <= |log|
    ensures !SameHashTwice(log[k..])
  {
    forall i, j | 0 <= i < j < |log| - k ensures log[k..][i].hash != log[k..][j].hash {
      HashesDiffer(g, log, k + i, k + j);
    }
  }

  /** Merging adds one chained audit row per entry, in order. */
  lemma {:induction false} MergedFits(g: Digest, wrap: Wrap, audit: seq<Entry>, es: seq<Entry>, clock: nat -> int)
    requires IgnoresHashes(g) && Chained(g, audit)
    ensures Chained(g, Merged(g, wrap, audit, es, clock))
    ensures EmergencyDetails(Merged(g, wrap, audit, es, clock)) == EmergencyDetails(audit) + WrapAll(wrap, es)
  {
    if es != [] {
      var less, last := es[..|es| - 1], es[|es| - 1];
      var before := Merged(g, wrap, audit, less, clock);
      MergedFits(g, wrap, audit, less, clock);
      AppendKeepsChain(g, before, EMERGENCY, EMERGENCY, wrap(last), clock(|before|));
      DetailsAppend(before, NextEntry(g, before, EMERGENCY, EMERGENCY, wrap(last), clock(|before|)));
      assert WrapAll(wrap, es) == WrapAll(wrap, less) + [wrap(last)];
    } else {
      assert WrapAll(wrap, es) == [];
    }
  }

  /** After a restart everything is merged. */
  lemma RestartMergesAll(g: Digest, wrap: Wrap, s: Logs, clock: nat -> int)
    requires Sound(g) && IgnoresHashes(g) && LogsInv(g, wrap, s)
    ensures var s' := Next(g, wrap, s, Restart(clock));
            s'.log == s.log && Chained(g, s'.audit) && MergedUpTo(wrap, s', |s.log|)
  {
    var k: nat :| MergedUpTo(wrap, s, k);
    UnmergedIsTail(g, s.log, k, |s.log|);
    assert s.log[..|s.log|] == s.log && s.log[k..|s.log|] == s.log[k..];
    TailHasNoRepeats(g, s.log, k);
    MergedFits(g, wrap, s.audit, s.log[k..], clock);
    WrapJoin(wrap, s.log, k);
    HashesJoin(s.log, k);
  }

  lemma WrapJoin(wrap: Wrap, log: seq<Entry>, k: nat)
    requires k <= |log|
    ensures WrapAll(wrap, log[..k]) + WrapAll(wrap, log[k..]) == WrapAll(wrap, log)
  {
  }

  lemma HashesJoin(log: seq<Entry>, k: nat)
    requires k <= |log|
    ensures Hashes(log[..k]) + Hashes(log[k..]) == Hashes(log)
  {
    forall x | x in Hashes(log) ensures x in Hashes(log[..k]) + Hashes(log[k..]) {
      var i :| 0 <= i < |log| && log[i].hash == x;
      if i < k {
        assert log[..k][i] == log[i];
      } else {
        assert log[k..][i - k] == log[i];
      }
    }
  }

  lemma LogsInvStep(g: Digest, wrap: Wrap, s: Logs, step: LogStep)
    requires Sound(g) && IgnoresHashes(g) && LogsInv(g, wrap, s) && Ordinary(step)
    ensures LogsInv(g, wrap, Next(g, wrap, s, step))
  {
    var s' := Next(g, wrap, s, step);
    var k: nat :| MergedUpTo(wrap, s, k);
    match step
    case LogAppend(actor, action, details, now) =>
      AppendKeepsChain(g, s.log, actor, action, details, now);
      assert s'.log[..k] == s.log[..k];
      assert MergedUpTo(wrap, s', k);
    case AuditAppend(actor, action, details, now) =>
      AppendKeepsChain(g, s.audit, actor, action, details, now);
      DetailsAppend(s.audit, NextEntry(g, s.audit, actor, action, details, now));
      assert MergedUpTo(wrap, s', k);
    case Restart(clock) =>
      RestartMergesAll(g, wrap, s, clock);
  }

  lemma {:induction false} LogsInvRun(g: Digest, wrap: Wrap, steps: seq<LogStep>)
    requires Sound(g) && IgnoresHashes(g) && forall i | 0 <= i < |steps| :: Ordinary(steps[i])
    ensures LogsInv(g, wrap, LogRun(g, wrap, EMPTY, steps))
  {
    if steps == [] {
      assert MergedUpTo(wrap, EMPTY, 0);
    } else {
      LogsInvRun(g, wrap, steps[..|steps| - 1]);
      LogsInvStep(g, wrap, LogRun(g, wrap, EMPTY, steps[..|steps| - 1]), steps[|steps| - 1]);
    }
  }

  /** Whatever was appended and however often the daemon was restarted before: after the next restart the audit log
      holds exactly one row per emergency entry, in log order; a further restart writes nothing; both logs verify. */
  lemma ReconciledExactlyOnce(h: Hash, wrap: Wrap, steps: seq<LogStep>, clock: nat -> int, later: nat -> int)
    requires IdealHash(h) && forall i | 0 <= i < |steps| :: Ordinary(steps[i])
    ensures var g := HashEntry(h);
            var s := Next(g, wrap, LogRun(g, wrap, EMPTY, steps), Restart(clock));
            && s.log == LogRun(g, wrap, EMPTY, steps).log
            && EmergencyDetails(s.audit) == WrapAll(wrap, s.log)
            && Next(g, wrap, s, Restart(later)) == s
            && BrokenRows(g, s.audit) == [] && BrokenRows(g, s.log) == []
  {
    var g := HashEntry(h);
    HashEntryIsSound(h);
    HashEntryIgnoresHashes(h);
    LogsInvRun(g, wrap, steps);
    AfterRestart(g, wrap, LogRun(g, wrap, EMPTY, steps), clock, later);
  }

  lemma AfterRestart(g: Digest, wrap: Wrap, s0: Logs, clock: nat -> int, later: nat -> int)
    requires Sound(g) && IgnoresHashes(g) && LogsInv(g, wrap, s0)
    ensures var s := Next(g, wrap, s0, Restart(clock));
            && s.log == s0.log
            && EmergencyDetails(s.audit) == WrapAll(wrap, s.log)
            && Next(g, wrap, s, Restart(later)) == s
            && BrokenRows(g, s.audit) == [] && BrokenRows(g, s.log) == []
  {
    RestartMergesAll(g, wrap, s0, clock);
    var s := Next(g, wrap, s0, Restart(clock));
    assert s.log[..|s.log|] == s.log;
    VerifiesExactly(g, s.audit);
    VerifiesExactly(g, s.log);
    AllMarked(g, s.log, |s.log|, |s.log|);
    assert Unmerged(s.log, s.marks) == [];
    assert !SameHashTwice([]);
    assert s.marks + Hashes([]) == s.marks;
  }
}
