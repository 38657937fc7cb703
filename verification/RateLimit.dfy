/** The per-client sliding-window rate limiter, split at the `await` between admission and response. */
module RateLimit {
  import opened Wrappers
  import opened SlidingWindows

  const WINDOW_SECONDS: real := 60.0

  datatype Request = Request(client: string, time: real)

  /** The request times of one client in a log. */
  function Times(log: seq<Request>, client: string): seq<real> {
    if log == [] then []
    else Times(log[..|log| - 1], client) + if log[|log| - 1].client == client then [log[|log| - 1].time] else []
  }

  /** The window that ends with the request holds fewer than `rpm` of its client's admissions. */
  predicate HasRoom(rpm: int, admitted: seq<Request>, r: Request) {
    CountIn(Times(admitted, r.client), r.time - WINDOW_SECONDS, r.time) < rpm
  }

  function Admit(rpm: int, admitted: seq<Request>, r: Request): seq<Request> {
    if HasRoom(rpm, admitted, r) then admitted + [r] else admitted
  }

  /**
   What the limiter is for, told over full histories: a request is admitted when its client has had
   fewer than `rpm` admissions in the window that ends with it.
   */
  function Admissions(rpm: int, arrivals: seq<Request>): seq<Request> {
    if arrivals == [] then []
    else Admit(rpm, Admissions(rpm, arrivals[..|arrivals| - 1]), arrivals[|arrivals| - 1])
  }

  /** The clock never goes back. */
  predicate Chronological(arrivals: seq<Request>) {
    forall i, j :: 0 <= i <= j < |arrivals| ==> arrivals[i].time <= arrivals[j].time
  }

  lemma AdmissionsSnoc(rpm: int, arrivals: seq<Request>, r: Request)
    ensures Admissions(rpm, arrivals + [r]) == Admit(rpm, Admissions(rpm, arrivals), r)
  {
    assert (arrivals + [r])[..|arrivals|] == arrivals;
  }

  lemma TimesSnoc(log: seq<Request>, r: Request, client: string)
    ensures Times(log + [r], client) == Times(log, client) + if r.client == client then [r.time] else []
  {
    assert (log + [r])[..|log|] == log;
  }

  lemma {:induction false} AdmissionsAreEarlier(rpm: int, arrivals: seq<Request>, client: string, now: real)
    requires forall i :: 0 <= i < |arrivals| ==> arrivals[i].time <= now
    ensures NoneLaterThan(Times(Admissions(rpm, arrivals), client), now)
  {
    if arrivals != [] {
      AdmissionsAreEarlier(rpm, arrivals[..|arrivals| - 1], client, now);
      TimesSnoc(Admissions(rpm, arrivals[..|arrivals| - 1]), arrivals[|arrivals| - 1], client);
    }
  }

  lemma {:induction false} AdmissionsNeedRoom(rpm: int, arrivals: seq<Request>)
    ensures rpm < 1 ==> Admissions(rpm, arrivals) == []
  {
    if arrivals != [] {
      AdmissionsNeedRoom(rpm, arrivals[..|arrivals| - 1]);
    }
  }

  /** A client's admission times after one more request of its own. */
  function Grown(rpm: int, times: seq<real>, now: real): seq<real> {
    if CountIn(times, now - WINDOW_SECONDS, now) < rpm then times + [now] else times
  }

  lemma TimesOfAdmitted(rpm: int, admitted: seq<Request>, r: Request, client: string)
    ensures Times(Admit(rpm, admitted, r), client) ==
      if r.client == client then Grown(rpm, Times(admitted, client), r.time) else Times(admitted, client)
  {
    TimesSnoc(admitted, r, client);
  }

  /** One more request adds to the admission times of its own client only, and only when there is room. */
  lemma TimesOfAdmissions(rpm: int, arrivals: seq<Request>, r: Request, client: string)
    ensures var times := Times(Admissions(rpm, arrivals), client);
      Times(Admissions(rpm, arrivals + [r]), client) ==
        if r.client == client then Grown(rpm, times, r.time) else times
  {
    AdmissionsSnoc(rpm, arrivals, r);
    TimesOfAdmitted(rpm, Admissions(rpm, arrivals), r, client);
  }

  lemma LatestIsLast(arrivals: seq<Request>, now: real)
    requires ChronologicalUpTo(arrivals, now)
    ensures forall i :: 0 <= i < |arrivals| ==> arrivals[i].time <= now
  {
    forall i | 0 <= i < |arrivals| ensures arrivals[i].time <= now {
      assert arrivals[i].time <= arrivals[|arrivals| - 1].time;
    }
  }

  /** What holds of one client's admission times when its next request arrives. */
  lemma WhenNextArrives(rpm: int, arrivals: seq<Request>, client: string, now: real)
    requires ChronologicalUpTo(arrivals, now)
    ensures var times := Times(Admissions(rpm, arrivals), client);
      NoneLaterThan(times, now) && (times != [] ==> rpm >= 1)
  {
    LatestIsLast(arrivals, now);
    AdmissionsAreEarlier(rpm, arrivals, client, now);
    AdmissionsNeedRoom(rpm, arrivals);
  }

  predicate ChronologicalUpTo(arrivals: seq<Request>, now: real) {
    Chronological(arrivals) && (arrivals == [] || arrivals[|arrivals| - 1].time <= now)
  }

  lemma ChronologicalSnoc(arrivals: seq<Request>, r: Request)
    ensures Chronological(arrivals + [r]) <==> ChronologicalUpTo(arrivals, r.time)
  {
    var longer := arrivals + [r];
    assert longer[|arrivals|] == r;
    if Chronological(longer) {
      assert forall i :: 0 <= i < |arrivals| ==> arrivals[i] == longer[i];
    }
    if ChronologicalUpTo(arrivals, r.time) {
      assert forall i :: 0 <= i < |arrivals| ==> arrivals[i].time <= arrivals[|arrivals| - 1].time;
    }
  }

  /** A stored list is the admissions, pruned at a moment no later window reaches back to. */
  ghost predicate StoredFits(rpm: int, stored: seq<real>, cutoff: real, times: seq<real>, latest: real) {
    stored == After(times, cutoff) && cutoff <= latest - WINDOW_SECONDS &&
    |stored| <= (if rpm < 0 then 0 else rpm) && (times != [] ==> stored != [])
  }

  lemma StoredKept(rpm: int, stored: seq<real>, cutoff: real, times: seq<real>, latest: real, now: real)
    requires StoredFits(rpm, stored, cutoff, times, latest) && latest <= now
    requires NoneLaterThan(times, now) && (times != [] ==> rpm >= 1)
    ensures var start := now - WINDOW_SECONDS;
      && |After(stored, start)| == CountIn(times, start, now)
      && StoredFits(rpm, Kept(rpm, stored, now), start, Grown(rpm, times, now), now)
  {
    var start := now - WINDOW_SECONDS;
    PruneAgain(times, cutoff, start);
    PrunedCounts(times, start, now);
    PruneShortens(stored, start);
    AfterSnoc(times, now, start);
  }

  ghost predicate ListFits(
      rpm: int, requests: map<string, seq<real>>, cutoffs: map<string, real>, arrivals: seq<Request>, client: string)
  {
    var times := Times(Admissions(rpm, arrivals), client);
    if client !in requests then times == []
    else
      client in cutoffs && arrivals != [] &&
      StoredFits(rpm, requests[client], cutoffs[client], times, arrivals[|arrivals| - 1].time)
  }

  ghost predicate AllFit(
      rpm: int, requests: map<string, seq<real>>, cutoffs: map<string, real>, arrivals: seq<Request>)
  {
    Chronological(arrivals) && forall client :: ListFits(rpm, requests, cutoffs, arrivals, client)
  }

  /** A stored list once a request at `now` has been dealt with. */
  function Kept(rpm: int, stored: seq<real>, now: real): seq<real> {
    var pruned := After(stored, now - WINDOW_SECONDS);
    if |pruned| >= rpm then pruned else pruned + [now]
  }

  class RateLimiter {
    const rpm: int
    const enabled: bool
    var requests: map<string, seq<real>>
    ghost var arrivals: seq<Request>
    ghost var cutoffs: map<string, real>

    ghost predicate Valid()
      reads this
    {
      AllFit(rpm, requests, cutoffs, arrivals)
    }

    constructor (rpm: int, enabled: bool)
      ensures Valid() && this.rpm == rpm && this.enabled == enabled && arrivals == []
    {
      this.rpm, this.enabled, requests, arrivals, cutoffs := rpm, enabled, map[], [], map[];
    }

    /**
     From the arrival of a request to the hand-over to the application.  A request without a client
     address counts for the shared client "unknown".
     */
    method Arrive(host: Option<string>, now: real) returns (admitted: bool)
      requires Valid() && (arrivals == [] || arrivals[|arrivals| - 1].time <= now)
      modifies this
      ensures Valid()
      ensures !enabled ==> admitted && requests == old(requests) && arrivals == old(arrivals)
      ensures enabled ==> arrivals == old(arrivals) + [Request(host.GetOr("unknown"), now)]
      ensures enabled ==>
        (admitted <==> HasRoom(rpm, Admissions(rpm, old(arrivals)), Request(host.GetOr("unknown"), now)))
    {
      if !enabled {
        return true;
      }
      var client := host.GetOr("unknown");
      ListsKeepFit(rpm, requests, cutoffs, arrivals, Request(client, now));
      cutoffs := cutoffs[client := now - WINDOW_SECONDS];
      arrivals := arrivals + [Request(client, now)];
      admitted := Record(client, now);
    }

    /** Prunes the client's list and appends to it if there is room; there is no `await` in between. */
    method Record(client: string, now: real) returns (admitted: bool)
      modifies this`requests
      ensures var stored := StoredFor(old(requests), client);
        && requests == old(requests)[client := Kept(rpm, stored, now)]
        && (admitted <==> |After(stored, now - WINDOW_SECONDS)| < rpm)
    {
      var windowStart := now - WINDOW_SECONDS;
      var timestamps := if client in requests then requests[client] else [];
      requests := requests[client := After(timestamps, windowStart)];
      if |requests[client]| >= rpm {
        return false;
      }
      requests := requests[client := requests[client] + [now]];
      admitted := true;
    }

    /** The X-RateLimit-Remaining header, read after any number of other requests came in meanwhile. */
    method Remaining(host: Option<string>) returns (remaining: int)
      requires Valid() && enabled && Times(Admissions(rpm, arrivals), host.GetOr("unknown")) != []
      ensures 0 <= remaining <= rpm - 1
      ensures host.GetOr("unknown") in requests && remaining == rpm - |requests[host.GetOr("unknown")]|
    {
      assert ListFits(rpm, requests, cutoffs, arrivals, host.GetOr("unknown"));
      AdmissionsNeedRoom(rpm, arrivals);
      remaining := rpm - |requests[host.GetOr("unknown")]|;
    }
  }

  /** The list a request finds for its client. */
  function StoredFor(requests: map<string, seq<real>>, client: string): seq<real> {
    if client in requests then requests[client] else []
  }

  lemma StoredListFits(
      rpm: int, requests: map<string, seq<real>>, cutoffs: map<string, real>, arrivals: seq<Request>,
      client: string, now: real) returns (cutoff: real)
    requires ChronologicalUpTo(arrivals, now) && ListFits(rpm, requests, cutoffs, arrivals, client)
    ensures StoredFits(rpm, StoredFor(requests, client), cutoff, Times(Admissions(rpm, arrivals), client), now)
  {
    cutoff := if client in requests then cutoffs[client] else now - WINDOW_SECONDS;
  }

  /** The pruned list answers whether there is room. */
  lemma PrunedListTellsRoom(rpm: int, stored: seq<real>, cutoff: real, admitted: seq<Request>, r: Request)
    requires StoredFits(rpm, stored, cutoff, Times(admitted, r.client), r.time)
    requires NoneLaterThan(Times(admitted, r.client), r.time)
    ensures |After(stored, r.time - WINDOW_SECONDS)| < rpm <==> HasRoom(rpm, admitted, r)
  {
    PruneAgain(Times(admitted, r.client), cutoff, r.time - WINDOW_SECONDS);
    PrunedCounts(Times(admitted, r.client), r.time - WINDOW_SECONDS, r.time);
  }

  lemma RecordedFits(rpm: int, stored: seq<real>, cutoff: real, times: seq<real>, grown: seq<real>, now: real)
    requires StoredFits(rpm, stored, cutoff, times, now) && NoneLaterThan(times, now) && (times != [] ==> rpm >= 1)
    requires grown == Grown(rpm, times, now)
    ensures StoredFits(rpm, Kept(rpm, stored, now), now - WINDOW_SECONDS, grown, now)
  {
    StoredKept(rpm, stored, cutoff, times, now, now);
  }

  lemma OwnListTellsRoom(
      rpm: int, requests: map<string, seq<real>>, cutoffs: map<string, real>, arrivals: seq<Request>, r: Request)
    requires ChronologicalUpTo(arrivals, r.time)
    requires ListFits(rpm, requests, cutoffs, arrivals, r.client)
    ensures |After(StoredFor(requests, r.client), r.time - WINDOW_SECONDS)| < rpm <==>
      HasRoom(rpm, Admissions(rpm, arrivals), r)
  {
    WhenNextArrives(rpm, arrivals, r.client, r.time);
    var cutoff := StoredListFits(rpm, requests, cutoffs, arrivals, r.client, r.time);
    PrunedListTellsRoom(rpm, StoredFor(requests, r.client), cutoff, Admissions(rpm, arrivals), r);
  }

  lemma OwnListKept(
      rpm: int, requests: map<string, seq<real>>, cutoffs: map<string, real>, arrivals: seq<Request>, r: Request)
    requires ChronologicalUpTo(arrivals, r.time)
    requires ListFits(rpm, requests, cutoffs, arrivals, r.client)
    ensures StoredFits(
      rpm, Kept(rpm, StoredFor(requests, r.client), r.time), r.time - WINDOW_SECONDS,
      Times(Admissions(rpm, arrivals + [r]), r.client), r.time)
  {
    WhenNextArrives(rpm, arrivals, r.client, r.time);
    TimesOfAdmissions(rpm, arrivals, r, r.client);
    var cutoff := StoredListFits(rpm, requests, cutoffs, arrivals, r.client, r.time);
    RecordedFits(
      rpm, StoredFor(requests, r.client), cutoff, Times(Admissions(rpm, arrivals), r.client),
      Times(Admissions(rpm, arrivals + [r]), r.client), r.time);
  }

  lemma OtherListKept(
      rpm: int, requests: map<string, seq<real>>, cutoffs: map<string, real>, arrivals: seq<Request>, r: Request,
      client: string, kept: seq<real>)
    requires ListFits(rpm, requests, cutoffs, arrivals, client) && client != r.client
    requires arrivals == [] || arrivals[|arrivals| - 1].time <= r.time
    ensures ListFits(rpm, requests[r.client := kept], cutoffs[r.client := r.time - WINDOW_SECONDS],
                     arrivals + [r], client)
  {
    TimesOfAdmissions(rpm, arrivals, r, client);
  }

  /** Handling a request, admitted or refused, keeps every client's list fitting its admissions. */
  lemma ListsKeepFit(
      rpm: int, requests: map<string, seq<real>>, cutoffs: map<string, real>, arrivals: seq<Request>, r: Request)
    requires AllFit(rpm, requests, cutoffs, arrivals)
    requires arrivals == [] || arrivals[|arrivals| - 1].time <= r.time
    ensures var kept := Kept(rpm, StoredFor(requests, r.client), r.time);
      AllFit(rpm, requests[r.client := kept], cutoffs[r.client := r.time - WINDOW_SECONDS], arrivals + [r])
    ensures |After(StoredFor(requests, r.client), r.time - WINDOW_SECONDS)| < rpm <==>
      HasRoom(rpm, Admissions(rpm, arrivals), r)
  {
    var kept := Kept(rpm, StoredFor(requests, r.client), r.time);
    var requests' := requests[r.client := kept];
    var cutoffs' := cutoffs[r.client := r.time - WINDOW_SECONDS];
    var arrivals' := arrivals + [r];
    ChronologicalSnoc(arrivals, r);
    OwnListTellsRoom(rpm, requests, cutoffs, arrivals, r);
    OwnListKept(rpm, requests, cutoffs, arrivals, r);
    forall client: string ensures ListFits(rpm, requests', cutoffs', arrivals', client) {
      if client != r.client {
        OtherListKept(rpm, requests, cutoffs, arrivals, r, client, kept);
      }
    }
  }

  // ------------------------------------------------------------------------------------------
  // The bound
  // ------------------------------------------------------------------------------------------

  lemma BoundKept(times: seq<real>, rpm: nat, now: real, t: real)
    requires NoneLaterThan(times, now)
    requires CountIn(times, t - WINDOW_SECONDS, t) <= rpm
    ensures CountIn(Grown(rpm, times, now), t - WINDOW_SECONDS, t) <= rpm
  {
    CountSnoc(times, now, t - WINDOW_SECONDS, t);
    if now <= t {
      CountLater(times, t - WINDOW_SECONDS, now, t);
      CountWithin(times, t - WINDOW_SECONDS, now, now - WINDOW_SECONDS, now);
    }
  }

  lemma WindowStep(rpm: nat, front: seq<Request>, r: Request, client: string, t: real)
    requires Chronological(front + [r])
    requires CountIn(Times(Admissions(rpm, front), client), t - WINDOW_SECONDS, t) <= rpm
    ensures CountIn(Times(Admissions(rpm, front + [r]), client), t - WINDOW_SECONDS, t) <= rpm
  {
    TimesOfAdmissions(rpm, front, r, client);
    ChronologicalSnoc(front, r);
    WhenNextArrives(rpm, front, client, r.time);
    if r.client == client {
      BoundKept(Times(Admissions(rpm, front), client), rpm, r.time, t);
    }
  }

  /** At no moment has a client more than `rpm` admissions in the last 60 seconds. */
  lemma {:induction false} WindowBound(rpm: nat, arrivals: seq<Request>, client: string, t: real)
    requires Chronological(arrivals)
    ensures CountIn(Times(Admissions(rpm, arrivals), client), t - 60.0, t) <= rpm
  {
    if arrivals != [] {
      var front, r := arrivals[..|arrivals| - 1], arrivals[|arrivals| - 1];
      assert arrivals == front + [r];
      WindowBound(rpm, front, client, t);
      WindowStep(rpm, front, r, client, t);
    }
  }

  /** A stretch of k windows holds at most k times as many admissions. */
  lemma {:induction false} StretchBound(rpm: nat, arrivals: seq<Request>, client: string, hi: real, k: nat)
    requires Chronological(arrivals)
    ensures CountIn(Times(Admissions(rpm, arrivals), client), hi - k as real * 60.0, hi) <= rpm * k
  {
    var times := Times(Admissions(rpm, arrivals), client);
    if k == 0 {
      NothingIn(times, hi);
    } else {
      var mid := hi - (k - 1) as real * 60.0;
      assert k as real == (k - 1) as real + 1.0;
      StretchBound(rpm, arrivals, client, hi, k - 1);
      WindowBound(rpm, arrivals, client, mid);
      CountSplits(times, mid - 60.0, mid, hi);
      assert rpm * k == rpm * (k - 1) + rpm;
    }
  }

  lemma {:induction false} NothingIn(times: seq<real>, t: real)
    ensures CountIn(times, t, t) == 0
  {
    if times != [] {
      NothingIn(times[..|times| - 1], t);
    }
  }

  /** How many of the times lie in the closed interval [a, b]. */
  function CountClosed(times: seq<real>, a: real, b: real): nat {
    if times == [] then 0
    else CountClosed(times[..|times| - 1], a, b) + if a <= times[|times| - 1] <= b then 1 else 0
  }

  lemma {:induction false} ClosedIsExact(times: seq<real>, a: real, b: real)
    ensures CountClosed(times, a, b) == |set i | 0 <= i < |times| && a <= times[i] && times[i] <= b|
  {
    if times != [] {
      var n := |times| - 1;
      ClosedIsExact(times[..n], a, b);
      var front := set i | 0 <= i < |times[..n]| && a <= times[..n][i] && times[..n][i] <= b;
      assert (set i | 0 <= i < |times| && a <= times[i] && times[i] <= b) ==
        front + if a <= times[n] <= b then {n} else {};
    }
  }

  lemma {:induction false} ClosedWithinOpen(times: seq<real>, lo: real, a: real, b: real)
    requires lo < a
    ensures CountClosed(times, a, b) <= CountIn(times, lo, b)
  {
    if times != [] {
      ClosedWithinOpen(times[..|times| - 1], lo, a, b);
    }
  }

  /** Any interval of length L, ends included, admits at most rpm * (floor(L / 60) + 1) requests of a client. */
  lemma IntervalBound(rpm: nat, arrivals: seq<Request>, client: string, a: real, length: real)
    requires Chronological(arrivals) && length >= 0.0
    ensures CountClosed(Times(Admissions(rpm, arrivals), client), a, a + length)
         <= rpm * ((length / 60.0).Floor + 1)
  {
    var k := (length / WINDOW_SECONDS).Floor + 1;
    StretchBound(rpm, arrivals, client, a + length, k);
    ClosedWithinOpen(Times(Admissions(rpm, arrivals), client), a + length - k as real * WINDOW_SECONDS, a, a + length);
  }

  /**
   What there is room for, in seconds and without the limiter's own words: fewer than `rpm` admissions of
   the client, or of all clients without an address together, in the minute that ends with the request.
   */
  lemma RoomIs(rpm: int, admitted: seq<Request>, host: Option<string>, now: real)
    ensures HasRoom(rpm, admitted, Request(host.GetOr("unknown"), now)) <==>
      CountIn(Times(admitted, if host.Some? then host.value else "unknown"), now - 60.0, now) < rpm
  {
  }

  /** The limiter refuses a request exactly when the window holds `rpm` admissions: never fewer, never more. */
  lemma RefusedExactlyWhenFull(rpm: nat, arrivals: seq<Request>, r: Request)
    requires Chronological(arrivals)
    ensures var admitted := Admissions(rpm, arrivals);
      !HasRoom(rpm, admitted, r) <==>
      CountIn(Times(admitted, r.client), r.time - 60.0, r.time) == rpm
  {
    WindowBound(rpm, arrivals, r.client, r.time);
  }
}
