/** The commit/push cadence of the git manager: per-stage modulo tables decide
    whether a processing event commits and whether it then pushes; a manager
    object counts successful commits and remembers the time of the last
    successful push. Each git subprocess is an opaque outcome. */
module GitManager {
  import opened Base
  import opened Strings

  /** What one `git` subprocess run did: it exited with a code and an output,
      it timed out, or running it raised. */
  datatype GitRun = Exited(returncode: int, stdout: string) | TimedOut | Raised

  /** The stages that `_should_commit` knows. */
  const CommitStages: set<string> :=
    {"metadata", "abstract", "fulltext", "ocr", "batch_complete", "status_update"}

  /** `_should_commit`: forced, or the stage's modulo rule holds. */
  predicate ShouldCommit(stage: string, count: int, force: bool)
    ensures force ==> ShouldCommit(stage, count, force)
    ensures ShouldCommit(stage, count, force) ==> force || stage in CommitStages
  {
    if force then true
    else if stage == "metadata" then count % 10 == 0
    else if stage == "abstract" then count % 5 == 0
    else if stage == "fulltext" then count % 3 == 0
    else if stage == "ocr" then count % 2 == 0
    else stage == "batch_complete" || stage == "status_update"
  }

  /** `_should_push`: forced, or the stage's modulo rule holds; the time
      heartbeat is consulted for the stage "hourly" only. */
  predicate ShouldPush(stage: string, count: int, force: bool, hourlyDue: bool)
    ensures force ==> ShouldPush(stage, count, force, hourlyDue)
    ensures !force && stage != "hourly" ==>
              ShouldPush(stage, count, force, hourlyDue) == ShouldPush(stage, count, force, false)
    ensures ShouldPush(stage, count, force, hourlyDue) ==> force || stage in CommitStages + {"hourly"}
  {
    if force then true
    else if stage == "metadata" then count % 50 == 0
    else if stage == "abstract" then count % 25 == 0
    else if stage == "fulltext" then count % 10 == 0
    else if stage == "ocr" then count % 5 == 0
    else if stage == "hourly" then hourlyDue
    else stage == "batch_complete" || stage == "status_update"
  }

  /** `_is_hourly_push_needed`: never pushed, or more than an hour ago. */
  predicate IsHourlyPushNeeded(lastPush: Option<int>, now: int) {
    lastPush.None? || now - lastPush.value > 3600
  }

  /** `_commit_changes`: a zero exit, or a non-zero exit that only reports
      that there was nothing to commit. */
  predicate CommitSucceeded(run: GitRun)
    ensures CommitSucceeded(run) ==> run.Exited?
    ensures run.Exited? && run.returncode == 0 ==> CommitSucceeded(run)
  {
    run.Exited? && (run.returncode == 0 || Contains(run.stdout, "nothing to commit"))
  }

  /** `_push_changes`: only a zero exit succeeds. */
  predicate PushSucceeded(run: GitRun) {
    run.Exited? && run.returncode == 0
  }

  /** An unforced event leads to a push attempt: it commits, then pushes. */
  predicate PushAttempted(stage: string, count: int, hourlyDue: bool) {
    ShouldCommit(stage, count, false) && ShouldPush(stage, count, false, hourlyDue)
  }

  /** A push is attempted only when both tables say so. Unforced, that is
      every 50 metadata, 25 abstract, 30 fulltext (3 and 10) and 10 ocr (2 and
      5) events, always for batch and status events, and never otherwise:
      in particular the hourly heartbeat alone never leads to a push. */
  lemma PushAttemptCadence(stage: string, count: int, hourlyDue: bool)
    ensures stage == "metadata" ==> (PushAttempted(stage, count, hourlyDue) <==> count % 50 == 0)
    ensures stage == "abstract" ==> (PushAttempted(stage, count, hourlyDue) <==> count % 25 == 0)
    ensures stage == "fulltext" ==> (PushAttempted(stage, count, hourlyDue) <==> count % 30 == 0)
    ensures stage == "ocr" ==> (PushAttempted(stage, count, hourlyDue) <==> count % 10 == 0)
    ensures stage in {"batch_complete", "status_update"} ==> PushAttempted(stage, count, hourlyDue)
    ensures stage !in CommitStages ==> !PushAttempted(stage, count, hourlyDue)
  {
    if stage == "metadata" {
      FiftyAndTen(count);
    } else if stage == "abstract" {
      TwentyFiveAndFive(count);
    } else if stage == "fulltext" {
      ThreeAndTen(count);
    } else if stage == "ocr" {
      TenAndTwoAndFive(count);
    }
  }

  lemma FiftyAndTen(count: int)
    ensures count % 50 == 0 ==> count % 10 == 0
  {
    var t := count / 50;
    assert count == 10 * (5 * t) + count % 50;
  }

  lemma TwentyFiveAndFive(count: int)
    ensures count % 25 == 0 ==> count % 5 == 0
  {
    var u := count / 25;
    assert count == 5 * (5 * u) + count % 25;
  }

  lemma TenAndTwoAndFive(count: int)
    ensures count % 10 == 0 ==> count % 2 == 0 && count % 5 == 0
  {
    var v := count / 10;
    assert count == 2 * (5 * v) + count % 10;
    assert count == 5 * (2 * v) + count % 10;
  }

  lemma ThreeAndTen(count: int)
    ensures count % 3 == 0 && count % 10 == 0 <==> count % 30 == 0
  {
    if count % 30 == 0 {
      ThirtyGivesThreeAndTen(count);
    }
    if count % 3 == 0 && count % 10 == 0 {
      ThreeAndTenGiveThirty(count);
    }
  }

  lemma ThirtyGivesThreeAndTen(count: int)
    requires count % 30 == 0
    ensures count % 3 == 0 && count % 10 == 0
  {
    var q := count / 30;
    assert count == 3 * (10 * q);
    assert count == 10 * (3 * q);
  }

  lemma ThreeAndTenGiveThirty(count: int)
    requires count % 3 == 0 && count % 10 == 0
    ensures count % 30 == 0
  {
    var b := count / 10;
    assert count == 9 * b + b;
    var c := b / 3;
    assert b == 3 * c + b % 3;
    assert count == 30 * c;
  }

  /** `_create_commit_message`: one wording per known stage, a generic one
      otherwise; every message ends with the timestamp. */
  function CommitMessage(stage: string, count: int, timestamp: string): (m: string)
    ensures |m| > |timestamp| && m[|m| - |timestamp|..] == timestamp
    ensures stage == "status_update" ==> m == "Update status page and metrics - " + timestamp
    ensures stage == "metadata" ==> m == "Add " + IntToString(count) + " article metadata entries - " + timestamp
  {
    var n := IntToString(count);
    if stage == "metadata" then "Add " + n + " article metadata entries - " + timestamp
    else if stage == "abstract" then "Process " + n + " article abstracts - " + timestamp
    else if stage == "fulltext" then "Download " + n + " full text articles - " + timestamp
    else if stage == "ocr" then "Complete OCR processing for " + n + " articles - " + timestamp
    else if stage == "batch_complete" then "Complete batch processing - " + n + " total articles - " + timestamp
    else if stage == "status_update" then "Update status page and metrics - " + timestamp
    else if stage == "hourly" then "Hourly backup - " + n + " articles processed - " + timestamp
    else "Update processing stage " + stage + " - " + n + " items - " + timestamp
  }

  /** The two fields a manager keeps. */
  datatype Counters = Counters(commitCount: int, lastPushTime: Option<int>)

  /** One call of `commit_and_push_if_needed`: the new counters and the
      returned flag. */
  function CommitAndPush(c: Counters, stage: string, count: int, force: bool, now: int,
                         commitRun: GitRun, pushRun: GitRun): (Counters, bool)
  {
    if !ShouldCommit(stage, count, force) then (c, false)
    else if !CommitSucceeded(commitRun) then (c, false)
    else
      var committed := c.(commitCount := c.commitCount + 1);
      if !ShouldPush(stage, count, force, IsHourlyPushNeeded(c.lastPushTime, now)) then (committed, true)
      else if PushSucceeded(pushRun) then (committed.(lastPushTime := Some(now)), true)
      else (committed, false)
  }

  /** The commit count rises by one exactly when a needed commit succeeds,
      whether or not the push after it fails; the push time changes only on a
      successful push, which needs a successful commit first; the result is
      true exactly when the commit succeeded and any needed push did too. */
  lemma CommitAndPushEffects(c: Counters, stage: string, count: int, force: bool, now: int,
                             commitRun: GitRun, pushRun: GitRun)
    ensures var (c', ok) := CommitAndPush(c, stage, count, force, now, commitRun, pushRun);
      var committed := ShouldCommit(stage, count, force) && CommitSucceeded(commitRun);
      var pushDue := ShouldPush(stage, count, force, IsHourlyPushNeeded(c.lastPushTime, now));
      && c'.commitCount == c.commitCount + (if committed then 1 else 0)
      && (c'.lastPushTime != c.lastPushTime ==> committed && pushDue && PushSucceeded(pushRun))
      && (committed && pushDue && PushSucceeded(pushRun) ==> c'.lastPushTime == Some(now))
      && (ok <==> committed && (!pushDue || PushSucceeded(pushRun)))
  {
  }

  /** Without force, what a call does never depends on the clock: the
      heartbeat cannot trigger a push on its own. */
  lemma UnforcedIgnoresClock(c: Counters, stage: string, count: int, now1: int, now2: int,
                             commitRun: GitRun, pushRun: GitRun)
    ensures CommitAndPush(c, stage, count, false, now1, commitRun, pushRun).1
         == CommitAndPush(c, stage, count, false, now2, commitRun, pushRun).1
    ensures CommitAndPush(c, stage, count, false, now1, commitRun, pushRun).0.commitCount
         == CommitAndPush(c, stage, count, false, now2, commitRun, pushRun).0.commitCount
    ensures CommitAndPush(c, stage, count, false, now1, commitRun, pushRun).0.lastPushTime.Some?
         == CommitAndPush(c, stage, count, false, now2, commitRun, pushRun).0.lastPushTime.Some?
  {
  }

  /** One call of `force_commit_and_push`: no count is kept, a failed
      commit is never followed by a push. */
  function ForceCommitAndPush(c: Counters, now: int, commitRun: GitRun, pushRun: GitRun): (r: (Counters, bool))
    ensures r.0.commitCount == c.commitCount
    ensures r.1 <==> CommitSucceeded(commitRun) && PushSucceeded(pushRun)
    ensures r.0.lastPushTime == if r.1 then Some(now) else c.lastPushTime
  {
    if !CommitSucceeded(commitRun) then (c, false)
    else if PushSucceeded(pushRun) then (c.(lastPushTime := Some(now)), true)
    else (c, false)
  }

  /** The git manager object, whose two fields the source updates in place. */
  class Manager {
    var commitCount: int
    var lastPushTime: Option<int>

    function State(): Counters
      reads this
    {
      Counters(commitCount, lastPushTime)
    }

    constructor ()
      ensures State() == Counters(0, None)
    {
      commitCount := 0;
      lastPushTime := None;
    }

    /** `commit_and_push_if_needed`; staging runs first and its result is
        ignored, as in the source. */
    method CommitAndPushIfNeeded(stage: string, count: int, force: bool, now: int,
                                 commitRun: GitRun, pushRun: GitRun) returns (ok: bool)
      modifies this
      ensures (State(), ok) == CommitAndPush(old(State()), stage, count, force, now, commitRun, pushRun)
    {
      if !ShouldCommit(stage, count, force) {
        return false;
      }
      if !CommitSucceeded(commitRun) {
        return false;
      }
      commitCount := commitCount + 1;
      if ShouldPush(stage, count, force, IsHourlyPushNeeded(lastPushTime, now)) {
        if PushSucceeded(pushRun) {
          lastPushTime := Some(now);
          return true;
        } else {
          return false;
        }
      } else {
        return true;
      }
    }

    /** `force_commit_and_push`. */
    method ForceCommitAndPushNow(now: int, commitRun: GitRun, pushRun: GitRun) returns (ok: bool)
      modifies this
      ensures (State(), ok) == ForceCommitAndPush(old(State()), now, commitRun, pushRun)
    {
      if !CommitSucceeded(commitRun) {
        return false;
      }
      if PushSucceeded(pushRun) {
        lastPushTime := Some(now);
        return true;
      }
      return false;
    }
  }
}
