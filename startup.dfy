/**
 * The startup-check loop of Views/StartupWindow.xaml.cs and the status source of
 * Services/Startup/BaseStartupCheck.cs.
 *
 * A check keeps every status it has published (the replay buffer) and has at most one
 * live subscriber, the window whose `Status` each new status is written to. What a
 * check's `DoCheck` does is given data: the statuses it publishes, and whether it then
 * throws.
 */
module Startup {

  const PerformingStatus := "Performing startup checks"

  /** The window's status sink. */
  class StartupWindow {
    /** The bound status text. */
    var Status: string
    /** Every value written to `Status`, oldest first. */
    ghost var StatusHistory: seq<string>
    /** The checks whose `DoCheck` has been invoked, in invocation order. */
    ghost var RunLog: seq<StartupCheck>
    const startupChecks: seq<StartupCheck>

    /** The status last written, if any was. */
    ghost predicate ShowsLastStatus()
      reads this
    {
      StatusHistory != [] ==> Status == StatusHistory[|StatusHistory| - 1]
    }

    constructor (startupChecks: seq<StartupCheck>)
      ensures this.startupChecks == startupChecks
      ensures StatusHistory == [] && RunLog == [] && ShowsLastStatus()
    {
      this.startupChecks := startupChecks;
      Status := "";
      StatusHistory := [];
      RunLog := [];
    }

    /** The `Status` setter. */
    method SetStatus(status: string)
      modifies this
      ensures Status == status
      ensures StatusHistory == old(StatusHistory) + [status]
      ensures RunLog == old(RunLog)
    {
      Status := status;
      StatusHistory := StatusHistory + [status];
    }

    /**
     * `PerformStartupCheck`: for each check in list order, subscribe (which replays what it has
     * already published), run it (each status it publishes goes to `Status`), end the
     * subscription, and write "Performing startup checks". A check that throws ends the
     * loop there: the later checks never run and `Status` is not reset. `completed` is
     * false when an exception left the method. The checks are distinct instances, as the
     * container resolves each registered check type to a new one. Every check that ran
     * has its script added to its buffer; the others keep theirs.
     */
    method PerformStartupCheck() returns (completed: bool)
      requires ShowsLastStatus()
      requires Distinct(startupChecks)
      requires forall c :: c in startupChecks ==> c.subscriber == null
      modifies this, startupChecks
      ensures ShowsLastStatus()
      ensures completed <==> forall c :: c in startupChecks ==> !c.throws
      ensures RunLog == old(RunLog) + startupChecks[..RunCount(startupChecks)]
      ensures StatusHistory == old(StatusHistory) + Trace(startupChecks, old(Published(startupChecks)), 0)
      ensures startupChecks == [] ==> Status == old(Status)
      ensures completed && startupChecks != [] ==> Status == PerformingStatus
      ensures forall j :: 0 <= j < |startupChecks| ==>
                Idle(startupChecks[j], old(startupChecks[j].published), j < RunCount(startupChecks))
    {
      ghost var initial := Published(startupChecks);
      ghost var n;
      completed, n := RunChecks(initial);
      if completed && startupChecks != [] {
        TraceEndsPerforming(startupChecks, initial, 0);
      }
      forall j | 0 <= j < |startupChecks|
        ensures Idle(startupChecks[j], old(startupChecks[j].published), j < RunCount(startupChecks))
      {
        assert initial[j] == old(startupChecks[j].published);
      }
    }

    /**
     * The loop itself, given what each check had buffered before it: it runs the first
     * `n` checks, stopping after the first that throws.
     */
    method RunChecks(ghost initial: seq<seq<string>>) returns (completed: bool, ghost n: nat)
      requires |initial| == |startupChecks|
      requires ShowsLastStatus()
      requires Distinct(startupChecks)
      requires forall j :: 0 <= j < |startupChecks| ==> Idle(startupChecks[j], initial[j], false)
      modifies this, startupChecks
      ensures n == RunCount(startupChecks)
      ensures completed <==> forall c :: c in startupChecks ==> !c.throws
      ensures ShowsLastStatus() && (startupChecks == [] ==> Status == old(Status))
      ensures forall j :: 0 <= j < |startupChecks| ==> Idle(startupChecks[j], initial[j], j < n)
      ensures RunLog == old(RunLog) + startupChecks[..n]
      ensures StatusHistory == old(StatusHistory) + Trace(startupChecks, initial, 0)
    {
      ghost var history := StatusHistory + Trace(startupChecks, initial, 0);
      completed := true;
      var i := 0;
      while i < |startupChecks|
        invariant 0 <= i <= |startupChecks|
        invariant ShowsLastStatus() && (i == 0 ==> Status == old(Status))
        invariant forall j :: 0 <= j < |startupChecks| ==> Idle(startupChecks[j], initial[j], j < i)
        invariant forall j :: 0 <= j < i ==> !startupChecks[j].throws
        invariant RunLog == old(RunLog) + startupChecks[..i]
        invariant history == StatusHistory + Trace(startupChecks, initial, i)
      {
        completed := Step(i, initial, old(RunLog));
        i := i + 1;
        if !completed {
          RunCountStopsAt(startupChecks, i - 1);
          break;
        }
      }
      if completed {
        RunCountAll(startupChecks);
      }
      n := i;
    }

    /**
     * One pass of the loop body for the check at position `i`: subscribe,
     * run it, end the subscription and, unless it threw, write the reset status. The
     * statuses written are the trace's first step from `i`.
     */
    method Step(i: nat, ghost initial: seq<seq<string>>, ghost ran: seq<StartupCheck>) returns (ok: bool)
      requires i < |startupChecks| == |initial|
      requires Distinct(startupChecks)
      requires RunLog == ran + startupChecks[..i]
      requires ShowsLastStatus()
      requires forall j :: 0 <= j < |startupChecks| ==> Idle(startupChecks[j], initial[j], j < i)
      modifies this, startupChecks[i]
      ensures ShowsLastStatus()
      ensures ok == !startupChecks[i].throws
      ensures forall j :: 0 <= j < |startupChecks| ==> Idle(startupChecks[j], initial[j], j < i + 1)
      ensures RunLog == ran + startupChecks[..i + 1]
      ensures old(StatusHistory) + Trace(startupChecks, initial, i)
              == StatusHistory + (if ok then Trace(startupChecks, initial, i + 1) else [])
    {
      var startupCheck := startupChecks[i];
      ok := RunOne(startupCheck);
      assert startupChecks[..i + 1] == startupChecks[..i] + [startupCheck];
      TraceFirstStep(startupChecks, initial, i);
      if ok {
        SetStatus(PerformingStatus);
      }
    }

    /**
     * One pass of the loop body before the reset: subscribe, run the check,
     * end the subscription. The window sees the check's buffer and then what it publishes.
     */
    method RunOne(startupCheck: StartupCheck) returns (ok: bool)
      requires ShowsLastStatus()
      requires startupCheck.subscriber == null
      modifies this, startupCheck
      ensures ShowsLastStatus()
      ensures ok == !startupCheck.throws
      ensures startupCheck.published == old(startupCheck.published) + startupCheck.script
      ensures startupCheck.subscriber == null
      ensures StatusHistory == old(StatusHistory) + startupCheck.published
      ensures startupCheck.published == [] ==> Status == old(Status)
      ensures RunLog == old(RunLog) + [startupCheck]
    {
      startupCheck.Subscribe(this);
      RunLog := RunLog + [startupCheck];
      ok := startupCheck.DoCheck();
      startupCheck.Dispose();
    }
  }

  /** A startup check: its replay buffer, its one subscription slot and its scripted `DoCheck`. */
  class StartupCheck {
    /** Every status published so far (the check's `ReplaySubject`). */
    var published: seq<string>
    /** The window currently subscribed, if any. */
    var subscriber: StartupWindow?
    /** The statuses `DoCheck` publishes, in order. */
    const script: seq<string>
    /** Whether `DoCheck` throws after publishing them. */
    const throws: bool

    constructor (script: seq<string>, throws: bool)
      ensures this.script == script && this.throws == throws
      ensures published == [] && subscriber == null
    {
      this.script := script;
      this.throws := throws;
      published := [];
      subscriber := null;
    }

    /** `OnNext`: buffer the status and hand it to the live subscriber, if there is one. */
    method Publish(status: string)
      modifies this, subscriber
      ensures published == old(published) + [status] && subscriber == old(subscriber)
      ensures subscriber != null ==> && subscriber.Status == status
                                     && subscriber.StatusHistory == old(subscriber.StatusHistory) + [status]
                                     && subscriber.RunLog == old(subscriber.RunLog)
    {
      published := published + [status];
      if subscriber != null {
        subscriber.SetStatus(status);
      }
    }

    /** `Subscribe(status => Status = status)`: replay the buffer to the window, then stay attached. */
    method Subscribe(window: StartupWindow)
      requires subscriber == null
      modifies this, window
      ensures subscriber == window && published == old(published)
      ensures window.StatusHistory == old(window.StatusHistory) + published
      ensures published != [] ==> window.Status == published[|published| - 1]
      ensures published == [] ==> window.Status == old(window.Status)
      ensures window.RunLog == old(window.RunLog)
    {
      var replay := published;
      for i := 0 to |replay|
        invariant published == replay
        invariant window.StatusHistory == old(window.StatusHistory) + replay[..i]
        invariant i > 0 ==> window.Status == replay[i - 1]
        invariant i == 0 ==> window.Status == old(window.Status)
        invariant window.RunLog == old(window.RunLog)
      {
        assert replay[..i + 1] == replay[..i] + [replay[i]];
        window.SetStatus(replay[i]);
      }
      assert replay[..|replay|] == replay;
      subscriber := window;
    }

    /** Disposing the subscription: later statuses reach no window. */
    method Dispose()
      modifies this
      ensures subscriber == null && published == old(published)
    {
      subscriber := null;
    }

    /** The check body: publish the scripted statuses in order; `ok` is false when it throws. */
    method DoCheck() returns (ok: bool)
      modifies this, subscriber
      ensures published == old(published) + script && subscriber == old(subscriber)
      ensures ok == !throws
      ensures subscriber != null ==> && subscriber.StatusHistory == old(subscriber.StatusHistory) + script
                                     && (script != [] ==> subscriber.Status == script[|script| - 1])
                                     && (script == [] ==> subscriber.Status == old(subscriber.Status))
                                     && subscriber.RunLog == old(subscriber.RunLog)
    {
      for i := 0 to |script|
        invariant published == old(published) + script[..i] && subscriber == old(subscriber)
        invariant subscriber != null ==> && subscriber.StatusHistory == old(subscriber.StatusHistory) + script[..i]
                                         && (i > 0 ==> subscriber.Status == script[i - 1])
                                         && (i == 0 ==> subscriber.Status == old(subscriber.Status))
                                         && subscriber.RunLog == old(subscriber.RunLog)
      {
        assert script[..i + 1] == script[..i] + [script[i]];
        Publish(script[i]);
      }
      assert script[..|script|] == script;
      ok := !throws;
    }
  }

  /**
   * A check between runs: nobody subscribed, and its buffer holds what it held before,
   * followed by its script when it has run.
   */
  ghost predicate Idle(c: StartupCheck, before: seq<string>, ran: bool)
    reads c
  {
    c.subscriber == null && c.published == before + (if ran then c.script else [])
  }

  /** No check is listed twice. */
  predicate Distinct(checks: seq<StartupCheck>)
  {
    forall j, k :: 0 <= j < |checks| && 0 <= k < |checks| && j != k ==> checks[j] != checks[k]
  }

  /** What each listed check holds in its buffer, position by position. */
  ghost function Published(checks: seq<StartupCheck>): (r: seq<seq<string>>)
    reads checks
    ensures |r| == |checks| && forall j :: 0 <= j < |checks| ==> r[j] == checks[j].published
  {
    if checks == [] then [] else [checks[0].published] + Published(checks[1..])
  }

  /**
   * The statuses the loop writes to `Status` from position `i` on, given what each check
   * had buffered when the loop started: per check its buffer (replayed), then what it
   * publishes, then "Performing startup checks" unless it throws, in which case nothing
   * follows.
   */
  ghost function Trace(checks: seq<StartupCheck>, initial: seq<seq<string>>, i: nat): seq<string>
    decreases |checks| - i
  {
    if i >= |checks| then []
    else
      var c := checks[i];
      var after := (if i < |initial| then initial[i] else []) + c.script;
      if c.throws then after
      else after + [PerformingStatus] + Trace(checks, initial, i + 1)
  }

  /** The trace from `i`: the check's buffer and script, then, unless it throws, the reset and the rest. */
  lemma TraceFirstStep(checks: seq<StartupCheck>, initial: seq<seq<string>>, i: nat)
    requires i < |checks| == |initial|
    ensures Trace(checks, initial, i)
            == initial[i] + checks[i].script
               + (if checks[i].throws then [] else [PerformingStatus] + Trace(checks, initial, i + 1))
  {
  }

  /** How many checks the loop invokes: up to and including the first that throws, or all. */
  function RunCount(checks: seq<StartupCheck>): (n: nat)
    ensures n <= |checks|
    ensures checks != [] ==> n > 0
  {
    if checks == [] then 0
    else if checks[0].throws then 1
    else 1 + RunCount(checks[1..])
  }

  /** When the check at `i` is the first to throw, the loop invokes `i + 1` checks. */
  lemma {:induction false} RunCountStopsAt(checks: seq<StartupCheck>, i: nat)
    requires i < |checks| && checks[i].throws
    requires forall j :: 0 <= j < i ==> !checks[j].throws
    ensures RunCount(checks) == i + 1
  {
    if i > 0 {
      forall j | 0 <= j < i - 1
        ensures !checks[1..][j].throws
      {
        assert checks[1..][j] == checks[j + 1];
      }
      RunCountStopsAt(checks[1..], i - 1);
    }
  }

  /** When no check throws, the loop invokes them all. */
  lemma {:induction false} RunCountAll(checks: seq<StartupCheck>)
    requires forall j :: 0 <= j < |checks| ==> !checks[j].throws
    ensures RunCount(checks) == |checks|
  {
    if checks != [] {
      forall j | 0 <= j < |checks| - 1
        ensures !checks[1..][j].throws
      {
        assert checks[1..][j] == checks[j + 1];
      }
      RunCountAll(checks[1..]);
    }
  }

  /**
   * When no check throws and there is at least one from position `i` on, the last
   * status written is "Performing startup checks".
   */
  lemma {:induction false} TraceEndsPerforming(checks: seq<StartupCheck>, initial: seq<seq<string>>, i: nat)
    requires i < |checks|
    requires forall j :: i <= j < |checks| ==> !checks[j].throws
    ensures Trace(checks, initial, i) != []
    ensures Trace(checks, initial, i)[|Trace(checks, initial, i)| - 1] == PerformingStatus
    decreases |checks| - i
  {
    if i + 1 < |checks| {
      TraceEndsPerforming(checks, initial, i + 1);
    }
  }
}
