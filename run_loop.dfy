/** The run loop (main.py `download_videos`, lines 487-564): up to three
    attempts, each opening a browser and closing it in the `finally`
    clause, with the browser made visible for the last attempt.

    How each attempt ends is given as an input, one entry per attempt
    that may be made; the model decides how many attempts are made, which
    browser mode each uses, the browser calls, and the result. */
module RunLoop {

  const MaxRetries: nat := 2

  /** How one attempt ends. */
  datatype AttemptEnd =
    | LoginFailed     // login() returned False
    | FiltersFailed   // select_filters() returned False
    | NoVideos        // get_video_links() returned an empty list
    | Raised          // an exception escaped the body of the attempt
    | Completed       // the videos were listed and each download was tried

  /** The browser calls, in the order they are made. */
  datatype BrowserEvent = Launch(headless: bool) | Close

  /** The number of attempts made from the attempt with retry count `k` on. */
  function AttemptsFrom(ends: seq<AttemptEnd>, k: nat): (n: nat)
    requires |ends| > MaxRetries && k <= MaxRetries
    ensures k + 1 <= n <= MaxRetries + 1
    ensures ends[n - 1] == Completed || n == MaxRetries + 1
    ensures forall j :: k <= j < n - 1 ==> ends[j] != Completed
    decreases MaxRetries - k
  {
    if ends[k] == Completed || k == MaxRetries then k + 1 else AttemptsFrom(ends, k + 1)
  }

  /** The number of attempts the run makes: it stops after the first
      attempt that completes, and after the third in any case. */
  function AttemptsMade(ends: seq<AttemptEnd>): (n: nat)
    requires |ends| > MaxRetries
    ensures 1 <= n <= MaxRetries + 1
  {
    AttemptsFrom(ends, 0)
  }

  /** The value `download_videos` returns: true when the last attempt
      completed or, being the third, found no videos. */
  function RunSucceeds(ends: seq<AttemptEnd>): (ok: bool)
    requires |ends| > MaxRetries
    ensures ok <==> || (exists k :: 0 <= k <= MaxRetries && ends[k] == Completed)
                    || (ends[MaxRetries] == NoVideos && forall k :: 0 <= k < MaxRetries ==> ends[k] != Completed)
  {
    var last := ends[AttemptsMade(ends) - 1];
    last == Completed || last == NoVideos
  }

  /** The browser mode of the attempt with retry count `k`: visible for the
      last attempt, as given before that. */
  function HeadlessFor(startHeadless: bool, k: nat): (headless: bool)
    ensures k < MaxRetries ==> headless == startHeadless
    ensures k >= MaxRetries ==> !headless
  {
    startHeadless && k < MaxRetries
  }

  /** The browser calls of `n` attempts: each launches a browser and closes it. */
  function Sessions(startHeadless: bool, n: nat): seq<BrowserEvent>
  {
    if n == 0 then [] else Sessions(startHeadless, n - 1) + [Launch(HeadlessFor(startHeadless, n - 1)), Close]
  }

  class Downloader {
    /** `self.headless`, read by each browser launch. */
    var headless: bool
    /** The browser calls made so far. */
    var events: seq<BrowserEvent>

    constructor (headless: bool)
      ensures this.headless == headless && events == []
    {
      this.headless := headless;
      events := [];
    }

    /** `setup_browser`: launches a browser in the current mode. */
    method SetupBrowser()
      modifies this
      ensures events == old(events) + [Launch(headless)] && headless == old(headless)
    {
      events := events + [Launch(headless)];
    }

    /** `close_browser`. */
    method CloseBrowser()
      modifies this
      ensures events == old(events) + [Close] && headless == old(headless)
    {
      events := events + [Close];
    }

    /** `download_videos`. */
    method DownloadVideos(ends: seq<AttemptEnd>) returns (ok: bool)
      requires |ends| > MaxRetries
      modifies this
      ensures ok == RunSucceeds(ends)
      ensures events == old(events) + Sessions(old(headless), AttemptsMade(ends))
      ensures headless == HeadlessFor(old(headless), AttemptsMade(ends) - 1)
    {
      var retryCount: nat := 0;
      ok := false;
      while retryCount <= MaxRetries
        invariant retryCount <= MaxRetries
        invariant forall k :: 0 <= k < retryCount ==> ends[k] != Completed
        invariant events == old(events) + Sessions(old(headless), retryCount)
        invariant headless == old(headless)
        decreases MaxRetries - retryCount
      {
        if retryCount > 0 {
          if headless && retryCount == MaxRetries {
            headless := false;
          }
        }
        SetupBrowser();
        var retry := false;
        match ends[retryCount] {
          case LoginFailed | FiltersFailed | Raised =>
            if retryCount < MaxRetries {
              retry := true;
            } else {
              ok := false;
            }
          case NoVideos =>
            if retryCount < MaxRetries {
              retry := true;
            } else {
              ok := true;
            }
          case Completed =>
            ok := true;
        }
        CloseBrowser();  // the `finally` clause
        if !retry {
          AttemptsMadeIs(ends, retryCount + 1);
          break;
        }
        retryCount := retryCount + 1;
      }
    }
  }

  /** The run makes `n` attempts exactly when the first `n - 1` do not
      complete and the `n`-th completes or is the third. */
  lemma AttemptsMadeIs(ends: seq<AttemptEnd>, n: nat)
    requires |ends| > MaxRetries && 1 <= n <= MaxRetries + 1
    requires forall k :: 0 <= k < n - 1 ==> ends[k] != Completed
    requires ends[n - 1] == Completed || n == MaxRetries + 1
    ensures AttemptsMade(ends) == n
  {
    AttemptsFromIs(ends, 0, n);
  }

  lemma {:induction false} AttemptsFromIs(ends: seq<AttemptEnd>, k: nat, n: nat)
    requires |ends| > MaxRetries && k < n <= MaxRetries + 1
    requires forall j :: k <= j < n - 1 ==> ends[j] != Completed
    requires ends[n - 1] == Completed || n == MaxRetries + 1
    ensures AttemptsFrom(ends, k) == n
    decreases n - k
  {
    if k < n - 1 {
      AttemptsFromIs(ends, k + 1, n);
    }
  }

  /** Each attempt launches a browser in its mode and then closes it, before
      the next attempt begins. */
  lemma {:induction false} SessionsShape(startHeadless: bool, n: nat)
    ensures |Sessions(startHeadless, n)| == 2 * n
    ensures forall k :: 0 <= k < n ==>
              Sessions(startHeadless, n)[2 * k] == Launch(HeadlessFor(startHeadless, k))
              && Sessions(startHeadless, n)[2 * k + 1] == Close
  {
    if n > 0 {
      SessionsShape(startHeadless, n - 1);
    }
  }

  /** The browser is visible only from the third attempt, and only if it was
      headless to begin with; a visible start stays visible. */
  lemma HeadlessSwitch(startHeadless: bool, k: nat)
    requires k <= MaxRetries
    ensures HeadlessFor(startHeadless, k) != startHeadless <==> startHeadless && k == MaxRetries
  {
  }

  /** A run stops early only because an attempt completed, and then it succeeds. */
  lemma EarlyStopMeansCompleted(ends: seq<AttemptEnd>)
    requires |ends| > MaxRetries && AttemptsMade(ends) <= MaxRetries
    ensures ends[AttemptsMade(ends) - 1] == Completed && RunSucceeds(ends)
  {
  }

  /** A run fails only after three attempts, none completed, the third
      ending in a failed login, failed filters or an exception; an empty
      listing on the third attempt counts as success. */
  lemma FailureMeansThreeFailedAttempts(ends: seq<AttemptEnd>)
    requires |ends| > MaxRetries && !RunSucceeds(ends)
    ensures AttemptsMade(ends) == MaxRetries + 1
    ensures forall k :: 0 <= k <= MaxRetries ==> ends[k] != Completed
    ensures ends[MaxRetries] in {LoginFailed, FiltersFailed, Raised}
  {
  }

  /** Three failed logins from a headless start: three attempts, the third
      in a visible browser, each browser closed, and the run fails. */
  lemma ThreeFailedLogins(ends: seq<AttemptEnd>)
    requires |ends| > MaxRetries && ends[0] == ends[1] == ends[2] == LoginFailed
    ensures AttemptsMade(ends) == 3 && !RunSucceeds(ends)
    ensures Sessions(true, 3) == [Launch(true), Close, Launch(true), Close, Launch(false), Close]
  {
    AttemptsMadeIs(ends, 3);
  }
}
