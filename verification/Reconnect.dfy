/** The browser's reconnecting socket (frontend/src/hooks/usePollWebSocket.ts), one mount
    of the hook. */
module Reconnect {
  const BASE_DELAY_MS := 1000
  const MAX_DELAY_MS := 16000
  const MAX_ATTEMPTS := 8

  datatype Status = Connecting | Connected | Reconnecting | Disconnected

  /** `opens` and `refetches` count what happened; they influence nothing. */
  datatype State = State(
    status: Status,
    socket: bool,
    open: bool,
    timer: bool,
    attempts: nat,
    everConnected: bool,
    mounted: bool,
    opens: nat,
    refetches: nat)

  /** `url` says whether the browser accepts the socket's address. */
  datatype Event =
    | Opened
    | Dropped
    | TimerFires(url: bool)
    | BackOnline(url: bool)
    | Manual(url: bool)
    | Unmount

  function Attempt(s: State, url: bool): State {
    var cleared := s.(timer := false);
    if !url then cleared.(status := Disconnected)
    else cleared.(socket := true, open := false, status := if s.everConnected then Reconnecting else Connecting)
  }

  function Mounted(url: bool): State {
    Attempt(State(Connecting, false, false, false, 0, false, true, 0, 0), url)
  }

  /** A manual reconnect is offered, and the browser's signals act, only without a
      socket. */
  predicate Enabled(s: State, e: Event) {
    s.mounted &&
    match e
    case Opened => s.socket && !s.open
    case Dropped => s.socket
    case TimerFires(_) => s.timer
    case BackOnline(_) => !s.socket
    case Manual(_) => !s.socket
    case Unmount => true
  }

  function Step(s: State, e: Event): State
    requires Enabled(s, e)
  {
    match e
    case Opened =>
      s.(open := true, everConnected := true, attempts := 0, status := Connected, opens := s.opens + 1,
         refetches := if s.everConnected then s.refetches + 1 else s.refetches)
    case Dropped =>
      var gone := s.(socket := false, open := false);
      if s.attempts >= MAX_ATTEMPTS then gone.(status := Disconnected)
      else gone.(attempts := s.attempts + 1, status := Reconnecting, timer := true)
    case TimerFires(url) => Attempt(s, url)
    case BackOnline(url) => Attempt(s.(attempts := 0), url)
    case Manual(url) => Attempt(s.(attempts := 0), url)
    case Unmount => s.(mounted := false, timer := false, socket := false, open := false)
  }

  ghost predicate IsRun(ss: seq<State>, es: seq<Event>) {
    && |ss| == |es| + 1
    && forall i :: 0 <= i < |es| ==> Enabled(ss[i], es[i]) && ss[i + 1] == Step(ss[i], es[i])
  }

  // ---- The hook as an object -----------------------------------------------------------------------

  class PollSocket {
    var status: Status
    var socket: bool
    var open: bool
    var timer: bool
    var attempts: nat
    var everConnected: bool
    var mounted: bool
    ghost var opens: nat
    ghost var refetches: nat

    ghost function Now(): State
      reads this
    {
      State.State(status, socket, open, timer, attempts, everConnected, mounted, opens, refetches)
    }

    constructor (url: bool)
      ensures Now() == Mounted(url)
    {
      attempts, everConnected, mounted, open := 0, false, true, false;
      status, socket, timer := Connecting, false, false;
      opens, refetches := 0, 0;
      new;
      Connect(url);
    }

    method Connect(url: bool)
      modifies this
      ensures Now() == Attempt(old(Now()), url)
    {
      timer := false;
      if !url {
        status := Disconnected;
        return;
      }
      socket, open := true, false;
      status := if everConnected then Reconnecting else Connecting;
    }

    method OnOpen() returns (refetch: bool)
      requires Enabled(Now(), Opened)
      modifies this
      ensures Now() == Step(old(Now()), Opened)
      ensures refetch <==> Now().refetches > old(Now()).refetches
    {
      refetch := everConnected;
      open, everConnected, attempts, status := true, true, 0, Connected;
      opens := opens + 1;
      if refetch {
        refetches := refetches + 1;
      }
    }

    method OnClose(random: real) returns (delay: int)
      requires 0.0 <= random < 1.0 && Enabled(Now(), Dropped)
      modifies this
      ensures Now() == Step(old(Now()), Dropped)
      ensures attempts > old(attempts) ==> delay == NextDelay(old(attempts), random)
    {
      delay := 0;
      socket, open := false, false;
      if attempts >= MAX_ATTEMPTS {
        status := Disconnected;
        return;
      }
      delay := NextDelay(attempts, random);
      attempts, status, timer := attempts + 1, Reconnecting, true;
    }

    method RetryNow(hidden: bool, online: bool, url: bool)
      requires mounted
      modifies this
      ensures Now() == if old(socket) || hidden || !online then old(Now()) else Step(old(Now()), BackOnline(url))
    {
      if socket || hidden || !online {
        return;
      }
      attempts := 0;
      Connect(url);
    }
  }

  // ---- Safety ------------------------------------------------------------------------------------------

  ghost predicate Safe(s: State) {
    && !(s.socket && s.timer)
    && s.attempts <= MAX_ATTEMPTS
    && (s.open ==> s.socket)
    && (s.mounted ==> (s.status == Disconnected <==> !s.socket && !s.timer))
    && (s.mounted ==> (s.status == Connected <==> s.open))
    && (s.everConnected <==> s.opens > 0)
    && s.refetches == (if s.opens == 0 then 0 else s.opens - 1)
    && (s.mounted && s.timer ==> s.status == Reconnecting)
    && (s.mounted && s.socket && !s.open ==> s.status == if s.opens == 0 then Connecting else Reconnecting)
    && (!s.mounted ==> !s.socket && !s.timer)
  }

  /** At every point of a mount there is at most one of a socket and a pending retry, none
      of them exactly when the viewer is told "disconnected"; "connected" is shown exactly
      while a socket is open; and every open but the first refetches. */
  lemma {:induction false} ReconnectSafety(ss: seq<State>, es: seq<Event>, n: nat, url: bool)
    requires IsRun(ss, es) && ss[0] == Mounted(url) && n <= |es|
    ensures Safe(ss[n])
  {
    if n > 0 {
      ReconnectSafety(ss, es, n - 1, url);
    }
  }

  /** Drops since the last open or outside signal. */
  function DropsSince(es: seq<Event>): nat {
    if |es| == 0 then 0
    else match es[|es| - 1]
      case Opened => 0
      case BackOnline(_) => 0
      case Manual(_) => 0
      case Dropped => DropsSince(es[..|es| - 1]) + 1
      case _ => DropsSince(es[..|es| - 1])
  }

  /** An open, the network coming back and a manual reconnect each start the count afresh:
      the attempts counted are the drops since, up to eight. */
  lemma {:induction false} AttemptsCountDrops(ss: seq<State>, es: seq<Event>, n: nat, url: bool)
    requires IsRun(ss, es) && ss[0] == Mounted(url) && n <= |es|
    ensures ss[n].attempts == Min(DropsSince(es[..n]), 8)
  {
    if n > 0 {
      AttemptsCountDrops(ss, es, n - 1, url);
      assert es[..n][..n - 1] == es[..n - 1];
    } else {
      assert es[..0] == [];
    }
  }

  /** After a drop the browser waits for a retry, unless it is the ninth in a row; a timer,
      the network or the viewer brings a new socket, if the address is one. */
  lemma DropsAndAttempts(s: State, e: Event)
    requires Safe(s) && Enabled(s, e)
    ensures e.Dropped? ==> !Step(s, e).socket && (Step(s, e).timer <==> s.attempts < 8)
    ensures e.TimerFires? || e.BackOnline? || e.Manual? ==> !Step(s, e).timer && (Step(s, e).socket <==> e.url)
    ensures e.Opened? ==> Step(s, e).open && Step(s, e).attempts == 0
  {}

  /** A page whose socket opens, drops and opens again is connected, counts afresh and has
      refetched once. */
  lemma ReconnectingPage() returns (ss: seq<State>)
    ensures IsRun(ss, [Opened, Dropped, TimerFires(true), Opened]) && ss[0] == Mounted(true)
    ensures ss[1].status == Connected && ss[2].status == Reconnecting && ss[3].status == Reconnecting
    ensures ss[4].status == Connected && ss[4].attempts == 0 && ss[4].refetches == 1
  {
    var s0 := Mounted(true);
    var s1 := Step(s0, Opened);
    var s2 := Step(s1, Dropped);
    var s3 := Step(s2, TimerFires(true));
    ss := [s0, s1, s2, s3, Step(s3, Opened)];
  }

  // ---- Giving up ------------------------------------------------------------------------------------------

  /** How many more drops and retries can follow with nothing else happening. */
  function Rank(s: State): nat
    requires s.attempts <= MAX_ATTEMPTS
  {
    if s.socket then 2 * (MAX_ATTEMPTS - s.attempts) + 1
    else if s.timer then 2 * (MAX_ATTEMPTS - s.attempts) + 2
    else 0
  }

  ghost predicate Failing(e: Event) {
    e == Dropped || e == TimerFires(true)
  }

  function Retries(es: seq<Event>): nat {
    if |es| == 0 then 0 else Retries(es[..|es| - 1]) + (if es[|es| - 1].TimerFires? then 1 else 0)
  }

  /** With no successful open and no outside event every step brings the end closer; each
      attempt counted is a retry made or pending. */
  lemma {:induction false} FailuresRunOut(ss: seq<State>, es: seq<Event>, n: nat)
    requires IsRun(ss, es) && Safe(ss[0]) && ss[0].mounted && n <= |es|
    requires forall i :: 0 <= i < |es| ==> Failing(es[i])
    requires ss[0].socket || ss[0].timer
    ensures Safe(ss[n]) && ss[n].mounted && Rank(ss[n]) + n <= Rank(ss[0])
    ensures !ss[n].socket && !ss[n].timer ==> ss[n].attempts == MAX_ATTEMPTS
    ensures Retries(es[..n]) + (if ss[n].timer then 1 else 0)
         == ss[n].attempts - ss[0].attempts + (if ss[0].timer then 1 else 0)
  {
    if n > 0 {
      FailuresRunOut(ss, es, n - 1);
      assert es[..n][..n - 1] == es[..n - 1];
      assert Failing(es[n - 1]);
    }
  }

  /** A socket that cannot open is retried at most eight times; the run can only end, after
      exactly eight, with the viewer told "disconnected". */
  lemma GivesUpAfterEight(ss: seq<State>, es: seq<Event>)
    requires IsRun(ss, es) && ss[0] == Mounted(true)
    requires forall i :: 0 <= i < |es| ==> Failing(es[i])
    ensures |es| <= 2 * MAX_ATTEMPTS + 1 && Retries(es) <= MAX_ATTEMPTS
    ensures var last := ss[|es|];
            !Enabled(last, Dropped) && !Enabled(last, TimerFires(true)) <==> last.status == Disconnected
    ensures ss[|es|].status == Disconnected ==> Retries(es) == MAX_ATTEMPTS
    ensures |es| == 2 * MAX_ATTEMPTS + 1 ==> ss[|es|].status == Disconnected
  {
    FailuresRunOut(ss, es, |es|);
    assert es[..|es|] == es;
  }

  // ---- Delays -------------------------------------------------------------------------------------------------

  function Power2(n: nat): nat {
    if n == 0 then 1 else 2 * Power2(n - 1)
  }

  function Min(a: int, b: int): int {
    if a <= b then a else b
  }

  function Backoff(attempts: nat): int {
    Min(BASE_DELAY_MS * Power2(attempts), MAX_DELAY_MS)
  }

  /** Rounding half up, as Math.round does. */
  function Round(x: real): int {
    (x + 0.5).Floor
  }

  function NextDelay(attempts: nat, random: real): int
    requires 0.0 <= random < 1.0
  {
    var exponential := Backoff(attempts) as real;
    var jitter := exponential * 0.25 * (random * 2.0 - 1.0);
    var rounded := Round(exponential + jitter);
    if rounded >= BASE_DELAY_MS / 2 then rounded else BASE_DELAY_MS / 2
  }

  lemma {:induction false} PowerPositive(n: nat)
    ensures Power2(n) >= 1
  {
    if n > 0 {
      PowerPositive(n - 1);
    }
  }

  /** Every delay is within a quarter of the backoff, so the floor of half a second never
      decides; the backoff doubles until it meets its cap. */
  lemma DelayWithinAQuarter(attempts: nat, random: real)
    requires 0.0 <= random < 1.0
    ensures 3 * Backoff(attempts) <= 4 * NextDelay(attempts, random) <= 5 * Backoff(attempts)
    ensures NextDelay(attempts, random) > BASE_DELAY_MS / 2
    ensures Backoff(attempts + 1) == Min(2 * Backoff(attempts), MAX_DELAY_MS)
  {
    PowerPositive(attempts);
    var b := Backoff(attempts);
    assert b >= 1000 && b % 4 == 0;
    JitterBounds(b as real, random);
    RoundWithin(b, (b as real) * 0.25 * (random * 2.0 - 1.0));
  }

  lemma JitterBounds(exponential: real, random: real)
    requires 0.0 <= random < 1.0 && exponential > 0.0
    ensures -(exponential * 0.25) <= exponential * 0.25 * (random * 2.0 - 1.0) < exponential * 0.25
  {
    Scale(exponential * 0.25, random * 2.0 - 1.0);
  }

  lemma Scale(q: real, u: real)
    requires q > 0.0 && -1.0 <= u < 1.0
    ensures -q <= q * u < q
  {}

  lemma RoundWithin(b: int, jitter: real)
    requires b >= 1000 && b % 4 == 0
    requires -((b as real) * 0.25) <= jitter < (b as real) * 0.25
    ensures 3 * b <= 4 * Round((b as real) + jitter) <= 5 * b
  {
    var q := b / 4;
    assert (b as real) * 0.25 == q as real && b == 4 * q;
    assert (3 * q) as real <= (b as real) + jitter < (5 * q) as real;
  }

  /** The jitter is spread evenly around the backoff: three quarters of it at the least,
      exactly it in the middle, and the more the larger the random number. */
  lemma JitterIsCentred(attempts: nat, less: real, more: real)
    requires 0.0 <= less <= more < 1.0
    ensures 4 * NextDelay(attempts, 0.0) == 3 * Backoff(attempts) && NextDelay(attempts, 0.5) == Backoff(attempts)
    ensures NextDelay(attempts, less) <= NextDelay(attempts, more)
  {
    PowerPositive(attempts);
    var b := Backoff(attempts);
    assert b >= 1000 && b % 4 == 0;
    var q := b / 4;
    assert (b as real) * 0.25 == q as real && b == 4 * q;
    assert (b as real) * 0.25 * (0.0 * 2.0 - 1.0) == -(q as real);
    assert (b as real) * 0.25 * (0.5 * 2.0 - 1.0) == 0.0;
    assert (q as real) * (less * 2.0 - 1.0) <= (q as real) * (more * 2.0 - 1.0);
  }

  /** In milliseconds: about one second, doubling from drop to drop, and never more than
      twenty. */
  lemma DelaysInMilliseconds(attempts: nat, random: real)
    requires 0.0 <= random < 1.0
    ensures attempts == 0 ==> 750 <= NextDelay(attempts, random) <= 1250
    ensures attempts == 1 ==> 1500 <= NextDelay(attempts, random) <= 2500
    ensures attempts >= 4 ==> 12000 <= NextDelay(attempts, random) <= 20000
    ensures 750 <= NextDelay(attempts, random) <= 20000
  {
    DelayWithinAQuarter(attempts, random);
    PowerPositive(attempts);
    if attempts >= 4 {
      PowerPositive(attempts - 4);
      assert Power2(attempts) == 16 * Power2(attempts - 4) by {
        assert Power2(attempts - 2) == 4 * Power2(attempts - 4);
      }
    }
  }
}
