/** The serial order respects real time: every answered call has its own instant, between its start and its answer. */
module Linearizability {
  import opened Domain
  import opened Sql
  import opened Operations
  import opened Machine
  import opened Serializability
  import opened Safety

  /** The log and each caller's endings are only ever appended to. */
  ghost predicate Grows(s: System, later: System) {
    && s.log <= later.log && |s.procs| == |later.procs|
    && forall i :: 0 <= i < |s.procs| ==> s.procs[i].endings <= later.procs[i].endings
  }

  lemma EventGrows(s: System, e: Event)
    requires LocalInv(s) && Enabled(s, e)
    ensures Grows(s, Apply(s, e))
  {
    EventIsAtomic(s, e);
    if e.Step? {
      StepMoves(s, e.proc);
    }
  }

  lemma {:induction false} HistoryGrows(s: System, before: seq<Event>, during: seq<Event>)
    requires Initial(s) && Legal(s, before + during)
    ensures Legal(s, before) && Grows(After(s, before), After(s, before + during))
  {
    if |during| == 0 {
      assert before + during == before;
    } else {
      var shorter := before + Front(during);
      assert Front(before + during) == shorter && Last(before + during) == Last(during);
      HistoryGrows(s, before, Front(during));
      Serializable(s, shorter);
      EventGrows(After(s, shorter), Last(during));
    }
  }

  // Which entry of the log is which call's

  lemma {:induction false} MineSplits(log: seq<LogEntry>, k: nat, i: nat)
    requires k <= |log|
    ensures Mine(log, i) == Mine(log[..k], i) + Mine(log[k..], i)
  {
    if k < |log| {
      MineSplits(Front(log), k, i);
      assert Front(log)[..k] == log[..k] && Front(log)[k..] == Front(log[k..]);
    } else {
      assert log[..k] == log;
    }
  }

  lemma {:induction false} EffectsSplit(endings: seq<Ending>, n: nat)
    requires n <= |endings|
    ensures Effects(endings) == Effects(endings[..n]) + Effects(endings[n..])
  {
    if n < |endings| {
      EffectsSplit(Front(endings), n);
      assert Front(endings)[..n] == endings[..n] && Front(endings)[n..] == Front(endings[n..]);
    } else {
      assert endings[..n] == endings;
    }
  }

  /** The entry of program i that has `m` entries of i before it. */
  lemma {:induction false} EntryAt(log: seq<LogEntry>, i: nat, m: nat) returns (k: nat)
    requires m < |Mine(log, i)|
    ensures k < |log| && |Mine(log[..k], i)| == m
    ensures log[k] == LogEntry(i, Mine(log, i)[m].0, Mine(log, i)[m].1)
  {
    if m < |Mine(Front(log), i)| {
      k := EntryAt(Front(log), i, m);
      assert Front(log)[..k] == log[..k];
    } else {
      k := |log| - 1;
      assert log[..k] == Front(log);
    }
  }

  lemma EntriesBefore(log: seq<LogEntry>, i: nat, j: nat, k: nat)
    requires j <= k <= |log|
    ensures |Mine(log[..j], i)| <= |Mine(log[..k], i)|
    ensures j < k && log[j].proc == i ==> |Mine(log[..j], i)| < |Mine(log[..k], i)|
  {
    MineSplits(log[..k], j, i);
    assert log[..k][..j] == log[..j];
    if j < k && log[j].proc == i {
      MineSplits(log[..k], j + 1, i);
      assert log[..k][..j + 1] == log[..j + 1] && Front(log[..j + 1]) == log[..j];
    }
  }

  /** Position k of the log is where call n of program i took effect: the entry is the call's own, being preceded by
      as many of the program's entries as calls before it took effect, and the answer is the one given there. */
  ghost predicate Instant(l: Ledger, now: System, i: nat, n: nat, k: nat) {
    && i < |now.procs| && n < |now.procs[i].endings| && now.procs[i].endings[n].Answered? && k < |now.log|
    && var call := now.procs[i].endings[n];
       && now.log[k] == LogEntry(i, call.op, call.resp)
       && |Mine(now.log[..k], i)| == |Effects(now.procs[i].endings[..n])|
       && call.resp == Exec(Replay(l, now.log[..k]), call.op).1
  }

  lemma EarlierCall(endings: seq<Ending>, n: nat, m: nat)
    requires n < m <= |endings| && endings[n].Answered?
    ensures |Effects(endings[..n])| < |Effects(endings[..m])|
  {
    var upTo := endings[..m];
    EffectsSplit(upTo, n);
    EffectsSplit(upTo[n..], 1);
    assert upTo[..n] == endings[..n] && upTo[n..][..1] == [endings[n]] && Front([endings[n]]) == [];
  }

  /** No two calls share an instant: a program's calls take effect in the order in which they were answered. */
  lemma InstantsDiffer(l: Ledger, now: System, i: nat, n: nat, m: nat, j: nat, k: nat)
    requires Instant(l, now, i, n, j) && Instant(l, now, i, m, k)
    ensures n < m ==> j < k
    ensures n == m ==> j == k
  {
    if n < m {
      EarlierCall(now.procs[i].endings, n, m);
      if k <= j {
        EntriesBefore(now.log, i, k, j);
      }
    } else if n == m && j != k {
      EntriesBefore(now.log, i, if j < k then j else k, if j < k then k else j);
    }
  }

  /** The program is between two calls. */
  predicate Between(p: Proc) {
    p.pc.Ready? || p.pc.Auditing?
  }

  /** What the log of an interval holds of a program that was between calls at its start. */
  lemma IntervalEntries(l: Ledger, program: seq<seq<Op>>, was: System, now: System, i: nat)
    requires Serial(l, program, was) && Serial(l, program, now) && Grows(was, now)
    requires i < |was.procs| && Between(was.procs[i])
    ensures Mine(was.log, i) == Effects(was.procs[i].endings)
    ensures Mine(now.log, i) == TraceOf(now.procs[i])
  {
    assert Mine(was.log, i) == TraceOf(was.procs[i]);
  }

  lemma InstantWithin(l: Ledger, program: seq<seq<Op>>, was: System, now: System, i: nat, n: nat) returns (k: nat)
    requires Serial(l, program, was) && Serial(l, program, now) && Grows(was, now)
    requires i < |was.procs| && Between(was.procs[i])
    requires |was.procs[i].endings| <= n < |now.procs[i].endings| && now.procs[i].endings[n].Answered?
    ensures |was.log| <= k < |now.log| && Instant(l, now, i, n, k)
  {
    var endings, call := now.procs[i].endings, now.procs[i].endings[n];
    IntervalEntries(l, program, was, now, i);
    var m := |Effects(endings[..n])|;
    EffectsSplit(endings, n);
    EffectsSplit(endings[n..], 1);
    assert endings[n..][..1] == [call] && Front([call]) == [];
    assert Effects([call]) == [(call.op, call.resp)];
    assert Mine(now.log, i)[m] == (call.op, call.resp);
    k := EntryAt(now.log, i, m);
    FaithfulAt(l, now.log, k);
    EffectsSplit(endings[..n], |was.procs[i].endings|);
    assert endings[..n][..|was.procs[i].endings|] == was.procs[i].endings;
    assert now.log[..|was.log|] == was.log;
    if k < |was.log| {
      EntriesBefore(now.log, i, k, |was.log|);
    }
  }

  /** Linearizability. Let a program be between calls after `before`, and one of its later calls be answered by the
      end of `during`. Then that call took effect at an instant of its own inside `during`: its answer is what the
      atomic call gives there, though reads take two statements and a creation reads back in a second one. */
  lemma AnswersAreLinearizable(s: System, before: seq<Event>, during: seq<Event>, i: nat, n: nat) returns (k: nat)
    requires Initial(s) && Legal(s, before + during) && Legal(s, before)
    requires i < |After(s, before).procs| == |After(s, before + during).procs| && Between(After(s, before).procs[i])
    requires |After(s, before).procs[i].endings| <= n < |After(s, before + during).procs[i].endings|
    requires After(s, before + during).procs[i].endings[n].Answered?
    ensures |After(s, before).log| <= k < |After(s, before + during).log|
    ensures Instant(s.committed, After(s, before + during), i, n, k)
  {
    HistoryGrows(s, before, during);
    Serializable(s, before);
    Serializable(s, before + during);
    k := InstantWithin(s.committed, Programs(s), After(s, before), After(s, before + during), i, n);
  }

  lemma InstantStays(l: Ledger, was: System, now: System, i: nat, n: nat, k: nat)
    requires Grows(was, now) && Instant(l, was, i, n, k)
    ensures Instant(l, now, i, n, k)
  {
    assert now.procs[i].endings[..n] == was.procs[i].endings[..n];
    assert now.log[..k] == was.log[..k];
  }

  /** Real time is kept: a call answered by the end of `before` takes effect before any call that starts afterwards. */
  lemma RealTimeOrder(s: System, before: seq<Event>, during: seq<Event>, i: nat, n: nat, j: nat, m: nat)
    returns (early: nat, late: nat)
    requires Initial(s) && Legal(s, before + during) && Legal(s, before)
    requires i < |After(s, before).procs| && n < |After(s, before).procs[i].endings|
    requires After(s, before).procs[i].endings[n].Answered?
    requires j < |After(s, before).procs| == |After(s, before + during).procs| && Between(After(s, before).procs[j])
    requires |After(s, before).procs[j].endings| <= m < |After(s, before + during).procs[j].endings|
    requires After(s, before + during).procs[j].endings[m].Answered?
    ensures early < late
    ensures Instant(s.committed, After(s, before + during), i, n, early)
    ensures Instant(s.committed, After(s, before + during), j, m, late)
  {
    HistoryGrows(s, before, during);
    late := AnswersAreLinearizable(s, before, during, j, m);
    assert [] + before == before;
    HistoryGrows(s, [], before);
    early := AnswersAreLinearizable(s, [], before, i, n);
    InstantStays(s.committed, After(s, before), After(s, before + during), i, n, early);
  }
}
