/**
 * The brute-force task `bruteforce_rar_task`: it tests the candidates of
 * `Enumeration.Candidates` in order against the archive verifier, reports
 * throttled progress, and ends found, exhausted, or on a verifier error.
 *
 * The verifier is an oracle from candidate to verdict; the wall clock is the
 * function `clock`, read once per tested candidate (`clock(k)` when the k-th
 * candidate is tested) after the start reading `t0`; notifications are an
 * appended event log and the task table is a `TaskStore.Store`.
 */
module Bruteforce {

  import opened Wrappers
  import opened Arith
  import opened Enumeration
  import opened TaskStore

  /** The three outcomes of `check_rar_password`: true, false, or a raised error with its text. */
  datatype Verdict = Accept | Reject | Error(message: string)

  /** Notification events, in the order the task emits them. */
  datatype Event =
    | Started(charsetLength: nat, maxLength: int)
    | Progress(progress: int, currentCombination: string)
    | Completed(result: string)
    | Failed(error: string)

  /** How the task ends: the password it returns, `None`, or the verifier error it re-raises. */
  datatype Outcome = Found(password: string) | NotFound | Raised(message: string)

  const NotFoundMessage := "Password not found"

  // ---------------------------------------------------------------------------
  // The search

  /** Index of the first candidate the verifier does not reject (`|cands|` when it rejects all). */
  function FirstDecisive(cands: seq<string>, verifier: string -> Verdict): (k: nat)
    ensures k <= |cands|
    ensures forall i :: 0 <= i < k ==> verifier(cands[i]) == Reject
    ensures k < |cands| ==> verifier(cands[k]) != Reject
  {
    if cands == [] then 0
    else if verifier(cands[0]) != Reject then 0
    else 1 + FirstDecisive(cands[1..], verifier)
  }

  /** The outcome a search over `cands` must have. */
  function SearchOutcome(cands: seq<string>, verifier: string -> Verdict): Outcome
  {
    var k := FirstDecisive(cands, verifier);
    if k == |cands| then NotFound
    else match verifier(cands[k])
      case Error(msg) => Raised(msg)
      case _ => Found(cands[k])
  }

  /** How many candidates a search over `cands` passes to the verifier. */
  function Tested(cands: seq<string>, verifier: string -> Verdict): (n: nat)
    ensures n <= |cands|
    ensures |cands| > 0 ==> n >= 1
  {
    var k := FirstDecisive(cands, verifier);
    if k == |cands| then k else k + 1
  }

  lemma OutcomeWhenDecided(cands: seq<string>, verifier: string -> Verdict, n: nat)
    requires 0 < n <= |cands| && n == FirstDecisive(cands, verifier) + 1
    ensures Tested(cands, verifier) == n
    ensures SearchOutcome(cands, verifier) ==
      if verifier(cands[n - 1]).Error? then Raised(verifier(cands[n - 1]).message) else Found(cands[n - 1])
  {
  }

  lemma OutcomeWhenExhausted(cands: seq<string>, verifier: string -> Verdict)
    requires FirstDecisive(cands, verifier) == |cands|
    ensures Tested(cands, verifier) == |cands| && SearchOutcome(cands, verifier) == NotFound
  {
  }

  /**
   * The first decisive candidate is a word over the charset of length 1 to
   * `maxLength`, and the verifier rejects every word over the charset that
   * the enumeration order puts before it: every shorter word, and every word
   * of its length that is lexicographically smaller by charset position.
   */
  lemma DecisiveIsEarliest(cs: string, maxLength: int, verifier: string -> Verdict)
    requires FirstDecisive(Candidates(cs, maxLength), verifier) < |Candidates(cs, maxLength)|
    ensures var p := Candidates(cs, maxLength)[FirstDecisive(Candidates(cs, maxLength), verifier)];
      && verifier(p) != Reject
      && OverCharset(cs, p) && 1 <= |p| <= maxLength
      && (forall w :: OverCharset(cs, w) && 1 <= |w| && (|w| < |p| || (|w| == |p| && LexBefore(cs, w, p))) ==>
            verifier(w) == Reject)
  {
    var all := Candidates(cs, maxLength);
    var k := FirstDecisive(all, verifier);
    var p := all[k];
    CandidateShape(cs, maxLength, k);
    forall w | OverCharset(cs, w) && 1 <= |w| && (|w| < |p| || (|w| == |p| && LexBefore(cs, w, p)))
      ensures verifier(w) == Reject
    {
      PositionOrder(cs, w, p);
      CandidateAtPosition(cs, maxLength, w);
    }
  }

  /**
   * A found password is accepted by the verifier, is a word over the charset
   * of length 1 to `maxLength`, and every word over the charset tested before
   * it was rejected.
   */
  lemma FoundIsFirstAccepted(cs: string, maxLength: int, verifier: string -> Verdict, p: string)
    requires SearchOutcome(Candidates(cs, maxLength), verifier) == Found(p)
    ensures verifier(p) == Accept && OverCharset(cs, p) && 1 <= |p| <= maxLength
    ensures forall w :: OverCharset(cs, w) && 1 <= |w| && (|w| < |p| || (|w| == |p| && LexBefore(cs, w, p))) ==>
      verifier(w) == Reject
  {
    DecisiveIsEarliest(cs, maxLength, verifier);
  }

  /** `p` is a candidate word the verifier fails on with `msg`, and every word before it is rejected. */
  ghost predicate IsFirstError(cs: string, maxLength: int, verifier: string -> Verdict, p: string, msg: string)
  {
    && OverCharset(cs, p) && 1 <= |p| <= maxLength && verifier(p) == Error(msg)
    && (forall w :: OverCharset(cs, w) && 1 <= |w| && (|w| < |p| || (|w| == |p| && LexBefore(cs, w, p))) ==>
          verifier(w) == Reject)
  }

  /**
   * A verifier error ends the search with that error, raised on a word over
   * the charset; every word before it was rejected.
   */
  lemma RaisedIsFirstError(cs: string, maxLength: int, verifier: string -> Verdict, msg: string)
    requires SearchOutcome(Candidates(cs, maxLength), verifier) == Raised(msg)
    ensures exists p :: IsFirstError(cs, maxLength, verifier, p, msg)
  {
    DecisiveIsEarliest(cs, maxLength, verifier);
    var all := Candidates(cs, maxLength);
    var p := all[FirstDecisive(all, verifier)];
    assert IsFirstError(cs, maxLength, verifier, p, msg);
  }

  /** The search ends without a password exactly when the verifier rejects every word it could test. */
  lemma NotFoundIffAllRejected(cs: string, maxLength: int, verifier: string -> Verdict)
    ensures SearchOutcome(Candidates(cs, maxLength), verifier) == NotFound <==>
      forall w :: OverCharset(cs, w) && 1 <= |w| <= maxLength ==> verifier(w) == Reject
  {
    var all := Candidates(cs, maxLength);
    var k := FirstDecisive(all, verifier);
    if k < |all| {
      CandidateShape(cs, maxLength, k);
      assert OverCharset(cs, all[k]) && 1 <= |all[k]| <= maxLength && verifier(all[k]) != Reject;
    } else {
      forall w | OverCharset(cs, w) && 1 <= |w| <= maxLength
        ensures verifier(w) == Reject
      {
        CandidateAtPosition(cs, maxLength, w);
      }
    }
  }

  lemma ExampleWordsOfOne()
    ensures Product("ab", 1) == ["a", "b"]
  {
    assert "ab"[1..] == "b" && "b"[1..] == "";
    assert Attach('a', [""])[0] == "a" && Attach('b', [""])[0] == "b";
    assert Attach('a', [""]) == ["a"] && Attach('b', [""]) == ["b"];
  }

  lemma ExampleWordsOfTwo()
    ensures Product("ab", 2) == ["aa", "ab", "ba", "bb"]
  {
    ExampleWordsOfOne();
    assert "ab"[1..] == "b" && "b"[1..] == "";
    assert Attach('a', ["a", "b"])[0] == "aa" && Attach('a', ["a", "b"])[1] == "ab";
    assert Attach('b', ["a", "b"])[0] == "ba" && Attach('b', ["a", "b"])[1] == "bb";
    assert Attach('a', ["a", "b"]) == ["aa", "ab"] && Attach('b', ["a", "b"]) == ["ba", "bb"];
  }

  /**
   * Charset "ab", lengths 1 and 2, an archive whose password is "ba": the
   * candidates are a, b, aa, ab, ba, bb, and the search stops at the fifth.
   */
  lemma ExampleFoundFifth()
    ensures Candidates("ab", 2) == ["a", "b", "aa", "ab", "ba", "bb"]
    ensures var verifier := (w: string) => if w == "ba" then Accept else Reject;
      SearchOutcome(Candidates("ab", 2), verifier) == Found("ba") && Tested(Candidates("ab", 2), verifier) == 5
  {
    ExampleWordsOfOne();
    ExampleWordsOfTwo();
    var verifier := (w: string) => if w == "ba" then Accept else Reject;
    var all := ["a", "b", "aa", "ab", "ba", "bb"];
    assert Candidates("ab", 2) == all;
    var k := FirstDecisive(all, verifier);
    assert k == 4 by {
      assert verifier(all[4]) == Accept;
      forall i | 0 <= i < 4 ensures verifier(all[i]) == Reject {
      }
    }
  }

  /** The last event of the task. */
  function TerminalEvent(o: Outcome): Event
  {
    match o
    case Found(p) => Event.Completed(p)
    case NotFound => Event.Failed(NotFoundMessage)
    case Raised(msg) => Event.Failed(msg)
  }

  /** The terminal store write: `complete_task` with the password, otherwise `fail_task`. */
  function TerminalWrite(s: Store, id: int, o: Outcome): Store
  {
    if o.Found? then CompleteTask(s, id, o.password) else FailTask(s, id)
  }

  // ---------------------------------------------------------------------------
  // Throttled progress reports

  /** One progress report: after `processed` candidates, while testing `candidate`, at time `at`. */
  datatype Report = Report(processed: nat, progress: int, candidate: string, at: real)

  /** The reporter's counters `last_update` and `last_progress`, and the reports made so far. */
  datatype Reporter = Reporter(lastUpdate: real, lastProgress: int, reports: seq<Report>)

  /** Integer percentage of the search space covered after `processed` candidates. */
  function Percent(processed: nat, total: nat): (p: int)
    requires 0 < total && processed <= total
    ensures 0 <= p <= 100
  {
    DivMonotone(processed * 100, total * 100, total);
    processed * 100 / total
  }

  /** The reporter after one more candidate, read at time `now`. */
  function Tick(r: Reporter, processed: nat, total: nat, candidate: string, now: real): Reporter
    requires 0 < processed <= total
  {
    if now - r.lastUpdate >= 1.0 && Percent(processed, total) != r.lastProgress then
      var p := Percent(processed, total);
      Reporter(now, p, r.reports + [Report(processed, p, candidate, now)])
    else r
  }

  /** The reporter after the first `n` of `all` have been tested. */
  function ReporterAfter(all: seq<string>, n: nat, clock: nat -> real, t0: real): Reporter
    requires n <= |all|
  {
    if n == 0 then Reporter(t0, 0, [])
    else Tick(ReporterAfter(all, n - 1, clock, t0), n, |all|, all[n - 1], clock(n))
  }

  /** The progress notifications the reports stand for. */
  function ProgressEvents(reports: seq<Report>): seq<Event>
  {
    if reports == [] then []
    else ProgressEvents(reports[..|reports| - 1]) + [Progress(reports[|reports| - 1].progress, reports[|reports| - 1].candidate)]
  }

  /** The progress values written to the store by the reports. */
  function ProgressWrites(reports: seq<Report>): seq<int>
  {
    if reports == [] then []
    else ProgressWrites(reports[..|reports| - 1]) + [reports[|reports| - 1].progress]
  }

  lemma ReportsAppend(reports: seq<Report>, rep: Report)
    ensures ProgressEvents(reports + [rep]) == ProgressEvents(reports) + [Progress(rep.progress, rep.candidate)]
    ensures ProgressWrites(reports + [rep]) == ProgressWrites(reports) + [rep.progress]
  {
    assert (reports + [rep])[..|reports|] == reports;
  }

  lemma PercentMonotone(a: nat, b: nat, total: nat)
    requires 0 < total && a <= b <= total
    ensures Percent(a, total) <= Percent(b, total)
  {
    DivMonotone(a * 100, b * 100, total);
  }

  /** The percentage reaches 100 exactly at the last candidate. */
  lemma PercentFull(processed: nat, total: nat)
    requires 0 < total && processed <= total
    ensures Percent(processed, total) == 100 <==> processed == total
  {
    if processed < total {
      ScaledBelow(processed, total, 100);
    } else {
      ScaledSelf(total, 100);
    }
  }

  /** One report made while the first `n` of `all` were tested, as `Tick` makes it. */
  ghost predicate ReportFits(all: seq<string>, n: nat, clock: nat -> real, rep: Report)
    requires n <= |all|
  {
    && 1 <= rep.processed <= n
    && rep.candidate == all[rep.processed - 1]
    && rep.progress == Percent(rep.processed, |all|)
    && 1 <= rep.progress
    && rep.at == clock(rep.processed)
  }

  /**
   * The reporter's state after the first `n` of `all`: every report fits, the
   * reported percentages and counts strictly increase, consecutive reports
   * (and the first one after the start `t0`) are at least a second apart, and
   * the counters hold the last report.
   */
  ghost predicate Orderly(all: seq<string>, n: nat, clock: nat -> real, t0: real, r: Reporter)
    requires n <= |all|
  {
    var reps := r.reports;
    && AllFit(all, n, clock, reps)
    && Increasing(reps)
    && Spaced(reps, t0)
    && r.lastProgress == (if reps == [] then 0 else reps[|reps| - 1].progress)
    && r.lastUpdate == (if reps == [] then t0 else reps[|reps| - 1].at)
    && (n > 0 ==> r.lastProgress <= Percent(n, |all|))
  }

  ghost predicate AllFit(all: seq<string>, n: nat, clock: nat -> real, reps: seq<Report>)
    requires n <= |all|
  {
    forall i :: 0 <= i < |reps| ==> ReportFits(all, n, clock, reps[i])
  }

  /** Both the reported percentages and the counts strictly increase. */
  ghost predicate Increasing(reps: seq<Report>)
  {
    forall i, j :: 0 <= i < j < |reps| ==>
      reps[i].progress < reps[j].progress && reps[i].processed < reps[j].processed
  }

  /** The first report comes at least a second after `t0`, and each later one a second after the previous. */
  ghost predicate Spaced(reps: seq<Report>, t0: real)
  {
    && (forall i :: 0 < i < |reps| ==> reps[i].at - reps[i - 1].at >= 1.0)
    && (reps != [] ==> reps[0].at - t0 >= 1.0)
  }

  /** Reports that fit the first `n - 1` candidates fit the first `n`. */
  lemma WidenFit(all: seq<string>, n: nat, clock: nat -> real, reps: seq<Report>)
    requires 0 < n <= |all|
    requires AllFit(all, n - 1, clock, reps)
    ensures AllFit(all, n, clock, reps)
  {
    forall i | 0 <= i < |reps| ensures ReportFits(all, n, clock, reps[i]) {
      assert ReportFits(all, n - 1, clock, reps[i]);
    }
  }

  /** A reporter in order after `n - 1` candidates is still in order after `n` when nothing is reported. */
  lemma WidenOrder(all: seq<string>, n: nat, clock: nat -> real, t0: real, r: Reporter)
    requires 0 < n <= |all|
    requires Orderly(all, n - 1, clock, t0, r)
    ensures Orderly(all, n, clock, t0, r)
  {
    if n > 1 {
      PercentMonotone(n - 1, n, |all|);
    }
    WidenFit(all, n, clock, r.reports);
  }

  lemma AppendFit(all: seq<string>, n: nat, clock: nat -> real, reps: seq<Report>, rep: Report)
    requires n <= |all|
    requires AllFit(all, n, clock, reps) && ReportFits(all, n, clock, rep)
    ensures AllFit(all, n, clock, reps + [rep])
  {
    var reps' := reps + [rep];
    forall i | 0 <= i < |reps'| ensures ReportFits(all, n, clock, reps'[i]) {
      if i < |reps| {
        assert reps'[i] == reps[i];
      }
    }
  }

  /** Appending a report that exceeds every earlier one keeps both counts strictly increasing. */
  lemma AppendIncreasing(reps: seq<Report>, rep: Report)
    requires Increasing(reps)
    requires reps != [] ==> reps[|reps| - 1].progress < rep.progress && reps[|reps| - 1].processed < rep.processed
    ensures Increasing(reps + [rep])
  {
    var reps' := reps + [rep];
    forall i, j | 0 <= i < j < |reps'|
      ensures reps'[i].progress < reps'[j].progress && reps'[i].processed < reps'[j].processed
    {
      assert reps'[i] == reps[i];
      if j < |reps| {
        assert reps'[j] == reps[j];
      } else if i < |reps| - 1 {
        assert reps[i].progress < reps[|reps| - 1].progress && reps[i].processed < reps[|reps| - 1].processed;
      }
    }
  }

  /** Appending a report a second or more after the last one (or after `t0`) keeps the reports spaced. */
  lemma AppendSpaced(reps: seq<Report>, t0: real, rep: Report)
    requires Spaced(reps, t0)
    requires rep.at - (if reps == [] then t0 else reps[|reps| - 1].at) >= 1.0
    ensures Spaced(reps + [rep], t0)
  {
    var reps' := reps + [rep];
    forall i | 0 < i < |reps'| ensures reps'[i].at - reps'[i - 1].at >= 1.0 {
      if i < |reps| {
        assert reps'[i] == reps[i] && reps'[i - 1] == reps[i - 1];
      }
    }
  }

  /** Appending the report for candidate `n` keeps the reporter in order. */
  lemma AppendKeepsOrder(all: seq<string>, n: nat, clock: nat -> real, t0: real, r: Reporter)
    requires 0 < n <= |all|
    requires Orderly(all, n - 1, clock, t0, r)
    requires clock(n) - r.lastUpdate >= 1.0 && Percent(n, |all|) != r.lastProgress
    ensures var p := Percent(n, |all|);
      Orderly(all, n, clock, t0, Reporter(clock(n), p, r.reports + [Report(n, p, all[n - 1], clock(n))]))
  {
    var p := Percent(n, |all|);
    var reps := r.reports;
    var rep := Report(n, p, all[n - 1], clock(n));
    if n > 1 {
      PercentMonotone(n - 1, n, |all|);
    }
    WidenFit(all, n, clock, reps);
    if reps != [] {
      assert ReportFits(all, n - 1, clock, reps[|reps| - 1]);
    }
    AppendFit(all, n, clock, reps, rep);
    AppendIncreasing(reps, rep);
    AppendSpaced(reps, t0, rep);
  }

  lemma TickKeepsOrder(all: seq<string>, n: nat, clock: nat -> real, t0: real)
    requires 0 < n <= |all|
    requires Orderly(all, n - 1, clock, t0, ReporterAfter(all, n - 1, clock, t0))
    ensures Orderly(all, n, clock, t0, ReporterAfter(all, n, clock, t0))
  {
    var r := ReporterAfter(all, n - 1, clock, t0);
    if clock(n) - r.lastUpdate >= 1.0 && Percent(n, |all|) != r.lastProgress {
      AppendKeepsOrder(all, n, clock, t0, r);
    } else {
      WidenOrder(all, n, clock, t0, r);
    }
  }

  /**
   * The reports over the first `n` candidates: each lies in 1..100, belongs to a
   * candidate among the first `n`, came at least one second after the previous
   * report (or the start), and both the reported percentages and the counts
   * strictly increase from one report to the next.
   */
  lemma {:induction false} ReportsIncrease(all: seq<string>, n: nat, clock: nat -> real, t0: real)
    requires n <= |all|
    ensures Orderly(all, n, clock, t0, ReporterAfter(all, n, clock, t0))
  {
    if n > 0 {
      ReportsIncrease(all, n - 1, clock, t0);
      TickKeepsOrder(all, n, clock, t0);
    }
  }

  /** Each report is one progress event and one progress write, in the same order. */
  lemma {:induction false} ReportsAsEvents(reports: seq<Report>)
    ensures |ProgressEvents(reports)| == |reports| == |ProgressWrites(reports)|
    ensures forall i :: 0 <= i < |reports| ==>
      ProgressEvents(reports)[i] == Progress(reports[i].progress, reports[i].candidate) &&
      ProgressWrites(reports)[i] == reports[i].progress
  {
    if reports != [] {
      ReportsAsEvents(reports[..|reports| - 1]);
    }
  }

  /**
   * While the search runs, the status query shows the task with no result and
   * the last reported percentage; it reads completed only when that percentage
   * is 100, which happens only once the last candidate has been generated.
   */
  lemma StatusWhileSearching(all: seq<string>, n: nat, clock: nat -> real, t0: real,
                             s: Store, id: int, charset: string, maxLength: int)
    requires n <= |all| && id !in s && maxLength <= MaxLengthCap
    ensures var reps := ReporterAfter(all, n, clock, t0).reports;
      var v := GetTaskStatus(ApplyProgress(InsertTask(s, id, charset, maxLength), id, ProgressWrites(reps)), id);
      && v.Some? && v.value.result == None && 0 <= v.value.progress <= 100
      && v.value.status != Status.Failed
      && (v.value.status == Status.Completed <==> v.value.progress == 100)
      && (v.value.status == Status.Completed ==> n == |all|)
  {
    var reps := ReporterAfter(all, n, clock, t0).reports;
    var s0 := InsertTask(s, id, charset, maxLength);
    var ps := ProgressWrites(reps);
    ReportsAsEvents(reps);
    LastReportFits(all, n, clock, t0);
    if reps != [] {
      LastProgressWins(s0, id, ps);
    }
  }

  /** The last report so far carries a percentage in 1..100, and 100 only once every candidate has been generated. */
  lemma LastReportFits(all: seq<string>, n: nat, clock: nat -> real, t0: real)
    requires n <= |all|
    ensures var reps := ReporterAfter(all, n, clock, t0).reports;
      reps != [] ==>
        && 1 <= reps[|reps| - 1].progress <= 100
        && (reps[|reps| - 1].progress == 100 ==> n == |all|)
  {
    var reps := ReporterAfter(all, n, clock, t0).reports;
    if reps != [] {
      ReportsIncrease(all, n, clock, t0);
      assert AllFit(all, n, clock, reps);
      var last := reps[|reps| - 1];
      assert ReportFits(all, n, clock, last);
      PercentFull(last.processed, |all|);
    }
  }

  /**
   * Once the task has ended, the status query shows progress 100 and either
   * completed with the password or failed with no result.
   */
  lemma StatusWhenDone(s: Store, id: int, charset: string, maxLength: int, ps: seq<int>, o: Outcome)
    requires id !in s && maxLength <= MaxLengthCap
    ensures var s' := TerminalWrite(ApplyProgress(InsertTask(s, id, charset, maxLength), id, ps), id, o);
      GetTaskStatus(s', id) == Some(
        if o.Found? then TaskStatusView(id, Status.Completed, 100, Some(o.password))
        else TaskStatusView(id, Status.Failed, 100, None))
  {
    var s0 := InsertTask(s, id, charset, maxLength);
    if o.Found? {
      CompleteAbsorbsProgress(s0, id, ps, o.password);
    } else {
      FailAbsorbsProgress(s0, id, ps);
    }
  }

  // ---------------------------------------------------------------------------
  // The task

  lemma PrefixExtend<T>(s: seq<T>, n: nat)
    requires n < |s|
    ensures s[..n + 1] == s[..n] + [s[n]]
  {
  }

  /**
   * The reporter's variables, the event log and the store agree with the
   * first `n` candidates of `all`: the counters and reports are those of
   * `ReporterAfter`, the log is `head` followed by one PROGRESS event per
   * report, and the store is `store0` after one progress write per report.
   */
  ghost predicate Tracking(all: seq<string>, n: nat, clock: nat -> real, t0: real,
                           head: seq<Event>, store0: Store, taskId: int,
                           lastUpdate: real, lastProgress: int, reps: seq<Report>,
                           events: seq<Event>, store: Store)
    requires n <= |all|
  {
    && Reporter(lastUpdate, lastProgress, reps) == ReporterAfter(all, n, clock, t0)
    && events == head + ProgressEvents(reps)
    && store == ApplyProgress(store0, taskId, ProgressWrites(reps))
  }

  /**
   * The throttled progress step of the search loop, once the `processed`-th
   * candidate `password` has been generated at time `currentTime`: report
   * when at least a second has passed since the last report and the integer
   * percentage differs from the last one reported. A report appends a
   * PROGRESS event and writes the percentage to the store.
   */
  method ReportProgress(ghost all: seq<string>, ghost clock: nat -> real, ghost t0: real,
                        ghost head: seq<Event>, ghost store0: Store, taskId: int,
                        processed: nat, total: nat, password: string, currentTime: real,
                        lastUpdate: real, lastProgress: int, ghost reps: seq<Report>,
                        events: seq<Event>, store: Store)
    returns (lastUpdate': real, lastProgress': int, ghost reps': seq<Report>, events': seq<Event>, store': Store)
    requires 0 < processed <= total && total == |all|
    requires password == all[processed - 1] && currentTime == clock(processed)
    requires Tracking(all, processed - 1, clock, t0, head, store0, taskId, lastUpdate, lastProgress, reps, events, store)
    ensures Tracking(all, processed, clock, t0, head, store0, taskId, lastUpdate', lastProgress', reps', events', store')
  {
    ghost var before := Reporter(lastUpdate, lastProgress, reps);
    assert ReporterAfter(all, processed, clock, t0) == Tick(before, processed, total, password, currentTime);
    lastUpdate', lastProgress', reps', events', store' := lastUpdate, lastProgress, reps, events, store;
    if currentTime - lastUpdate >= 1.0 {
      var progress := processed * 100 / total;
      assert progress == Percent(processed, total);
      if progress != lastProgress {
        ghost var rep := Report(processed, progress, password, currentTime);
        events' := events + [Progress(progress, password)];
        store' := UpdateTaskProgress(store, taskId, progress);
        reps' := reps + [rep];
        lastProgress' := progress;
        lastUpdate' := currentTime;
        assert events' == head + ProgressEvents(reps') by {
          ReportsAppend(reps, rep);
        }
        assert store' == ApplyProgress(store0, taskId, ProgressWrites(reps')) by {
          ReportsAppend(reps, rep);
          ApplyProgressAppend(store0, taskId, ProgressWrites(reps), progress);
        }
      }
    }
  }

  /**
   * One pass of the inner loop: the candidates of one `length`, in
   * `itertools.product` order, each counted, reported on and checked. It
   * stops at the first candidate the verifier does not reject and returns
   * that verdict; otherwise it returns `None` after the whole block.
   */
  method SearchLength(ghost all: seq<string>, charset: string, maxLength: int, length: int,
                      verifier: string -> Verdict, clock: nat -> real, ghost t0: real,
                      ghost head: seq<Event>, ghost store0: Store, taskId: int, total: nat,
                      processed: nat, lastUpdate: real, lastProgress: int, ghost reps: seq<Report>,
                      events: seq<Event>, store: Store, queried: seq<string>)
    returns (stop: Option<Verdict>, processed': nat, lastUpdate': real, lastProgress': int,
             ghost reps': seq<Report>, events': seq<Event>, store': Store, queried': seq<string>)
    requires Blocks(all, charset, maxLength) && total == |all|
    requires 1 <= length <= maxLength
    requires processed == Total(|charset|, length - 1) <= FirstDecisive(all, verifier)
    requires queried == all[..processed]
    requires Tracking(all, processed, clock, t0, head, store0, taskId, lastUpdate, lastProgress, reps, events, store)
    ensures processed' <= |all| && queried' == all[..processed']
    ensures Tracking(all, processed', clock, t0, head, store0, taskId, lastUpdate', lastProgress', reps', events', store')
    ensures stop.None? ==> processed' == Total(|charset|, length) <= FirstDecisive(all, verifier)
    ensures stop.Some? ==> processed' == FirstDecisive(all, verifier) + 1 && stop.value == verifier(all[processed' - 1])
  {
    processed', lastUpdate', lastProgress', reps', events', store', queried' :=
      processed, lastUpdate, lastProgress, reps, events, store, queried;
    var batch := Product(charset, length);
    ProductLength(charset, length);
    assert all[processed..Total(|charset|, length)] == batch;
    var j := 0;
    while j < |batch|
      invariant 0 <= j <= |batch|
      invariant processed' == Total(|charset|, length - 1) + j <= FirstDecisive(all, verifier)
      invariant queried' == all[..processed']
      invariant Tracking(all, processed', clock, t0, head, store0, taskId, lastUpdate', lastProgress', reps', events', store')
    {
      var password := batch[j];
      assert all[processed'] == password;
      PrefixExtend(all, processed');
      processed' := processed' + 1;
      queried' := queried' + [password];
      var currentTime := clock(processed');
      lastUpdate', lastProgress', reps', events', store' :=
        ReportProgress(all, clock, t0, head, store0, taskId, processed', total, password, currentTime,
                       lastUpdate', lastProgress', reps', events', store');
      var verdict := verifier(password);
      if verdict != Reject {
        stop := Some(verdict);
        return;
      }
      j := j + 1;
    }
    assert Total(|charset|, length) == Total(|charset|, length - 1) + |batch|;
    stop := None;
  }

  /**
   * The outer loop: lengths 1 to `maxLength` in turn, each searched by
   * `SearchLength`, until one of them stops at a verdict other than a
   * rejection. With no such verdict every candidate has been tested.
   */
  method SearchAll(ghost all: seq<string>, charset: string, maxLength: int,
                   verifier: string -> Verdict, clock: nat -> real, t0: real,
                   head: seq<Event>, store0: Store, taskId: int, total: nat)
    returns (stop: Option<Verdict>, processed: nat, lastUpdate: real, lastProgress: int,
             ghost reps: seq<Report>, events: seq<Event>, store: Store, queried: seq<string>)
    requires Blocks(all, charset, maxLength) && total == |all|
    ensures processed <= |all| && queried == all[..processed]
    ensures Tracking(all, processed, clock, t0, head, store0, taskId, lastUpdate, lastProgress, reps, events, store)
    ensures stop.None? ==> processed == |all| <= FirstDecisive(all, verifier)
    ensures stop.Some? ==> processed == FirstDecisive(all, verifier) + 1 && stop.value == verifier(all[processed - 1])
  {
    processed, lastUpdate, lastProgress, reps, events, store, queried := 0, t0, 0, [], head, store0, [];
    var length := 1;
    while length <= maxLength
      invariant 1 <= length <= (if maxLength >= 1 then maxLength + 1 else 1)
      invariant processed == Total(|charset|, length - 1) <= FirstDecisive(all, verifier)
      invariant queried == all[..processed]
      invariant Tracking(all, processed, clock, t0, head, store0, taskId, lastUpdate, lastProgress, reps, events, store)
    {
      stop, processed, lastUpdate, lastProgress, reps, events, store, queried :=
        SearchLength(all, charset, maxLength, length, verifier, clock, t0, head, store0, taskId, total,
                     processed, lastUpdate, lastProgress, reps, events, store, queried);
      if stop.Some? {
        return;
      }
      length := length + 1;
    }
    assert processed == Total(|charset|, maxLength) by {
      if maxLength >= 1 {
        assert length == maxLength + 1;
      }
    }
    stop := None;
  }

  /**
   * `bruteforce_rar_task`: announce the search, test the candidates in order
   * with throttled progress reports, then record and announce the outcome: the
   * first accepted password completes the task, the first verification error
   * or an exhausted search fails it.
   */
  method BruteforceRarTask(charset: string, maxLength: int, taskId: int,
                           verifier: string -> Verdict, clock: nat -> real, t0: real, store: Store)
    returns (outcome: Outcome, queried: seq<string>, events: seq<Event>, store': Store)
    ensures outcome == SearchOutcome(Candidates(charset, maxLength), verifier)
    ensures queried == Candidates(charset, maxLength)[..Tested(Candidates(charset, maxLength), verifier)]
    ensures |queried| <= Total(|charset|, maxLength)
    ensures var reps := ReporterAfter(Candidates(charset, maxLength), |queried|, clock, t0).reports;
      events == [Started(|charset|, maxLength)] + ProgressEvents(reps) + [TerminalEvent(outcome)]
    ensures store' == TerminalWrite(store, taskId, outcome)
  {
    ghost var all := Candidates(charset, maxLength);
    var head := [Started(|charset|, maxLength)];
    var total := Total(|charset|, maxLength);
    CandidatesLength(charset, maxLength);
    CandidatesBlocks(charset, maxLength);
    var stop, processed, lastUpdate, lastProgress;
    ghost var reps;
    stop, processed, lastUpdate, lastProgress, reps, events, store', queried :=
      SearchAll(all, charset, maxLength, verifier, clock, t0, head, store, taskId, total);

    if stop.Some? {
      OutcomeWhenDecided(all, verifier, processed);
      if stop.value.Error? {
        store' := FailTask(store', taskId);
        FailAbsorbsProgress(store, taskId, ProgressWrites(reps));
        events := events + [Event.Failed(stop.value.message)];
        outcome := Raised(stop.value.message);
      } else {
        var password := queried[processed - 1];
        store' := CompleteTask(store', taskId, password);
        CompleteAbsorbsProgress(store, taskId, ProgressWrites(reps), password);
        events := events + [Event.Completed(password)];
        outcome := Found(password);
      }
    } else {
      OutcomeWhenExhausted(all, verifier);
      store' := FailTask(store', taskId);
      FailAbsorbsProgress(store, taskId, ProgressWrites(reps));
      events := events + [Event.Failed(NotFoundMessage)];
      outcome := NotFound;
    }
  }

  // ---------------------------------------------------------------------------
  // The task as written

  /** The error Python raises when the task looks up `send_message` on the manager, which does not define it. */
  const MissingSendMessage := "'WebSocketManager' object has no attribute 'send_message'"

  /** What a run of the task leaves behind: its outcome, the candidates tested, the notifications and the store. */
  datatype Run = Run(outcome: Outcome, queried: seq<string>, events: seq<Event>, store: Store)

  /**
   * `bruteforce_rar_task` as written: the STARTED notification, before the
   * `try`, looks up `send_message` on `WebSocketManager`, which has only
   * `send_message_via_redis`; the lookup raises and the task ends there.
   */
  function BruteforceAsWritten(charset: string, maxLength: int, taskId: int,
                               verifier: string -> Verdict, store: Store): Run
  {
    Run(Raised(MissingSendMessage), [], [], store)
  }

  /**
   * With charset "ab", lengths 1 and 2 and password "ba", the search that
   * delivers its notifications finds the password at the fifth candidate; the
   * task as written tests nothing, writes nothing and raises.
   */
  lemma ExampleAsWrittenRaises()
    ensures var verifier := (w: string) => if w == "ba" then Accept else Reject;
      var run := BruteforceAsWritten("ab", 2, 1, verifier, map[1 := TaskRecord("ab", 2, Running, 0, None)]);
      && SearchOutcome(Candidates("ab", 2), verifier) == Found("ba")
      && Tested(Candidates("ab", 2), verifier) == 5
      && run.outcome == Raised(MissingSendMessage) && run.queried == [] && run.events == []
      && GetTaskStatus(run.store, 1) == Some(TaskStatusView(1, Running, 0, None))
  {
    ExampleFoundFifth();
  }
}
