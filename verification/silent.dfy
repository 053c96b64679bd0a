// The rate limit per process and URL: so many answers in a window, or so many before a pause.
module Silencing {

  datatype PidUrl = PidUrl(text: string)
  datatype Mode = Window | Wait
  datatype Config = Config(count: int, period: int, mode: Mode)
  datatype Data = Data(leftCount: int, silentTime: int)

  type Datas = map<PidUrl, Data>
  datatype State = State(datas: Datas, nextWindowTime: int)

  // ---------------------------------------------------------------- the operations

  // checkSilent of an entry that is there: its new value and whether the answer is "silent".
  function Checked(d: Data, now: int): (Data, bool) {
    if d.leftCount <= 0 then (d, true)
    else if d.leftCount == 1 then (Data(0, now), false)
    else (Data(d.leftCount - 1, 0), false)
  }

  // IsSilent
  function Asked(cfg: Config, s: State, url: PidUrl, now: int): (State, bool) {
    if cfg.count <= 0 then (s, true)
    else if cfg.period <= 0 then (s, false)
    else if url in s.datas then
      var (d, silent) := Checked(s.datas[url], now);
      (s.(datas := s.datas[url := d]), silent)
    else (s.(datas := s.datas[url := Data(cfg.count - 1, 0)]), false)
  }

  // isNewWindow, with the next window time it leaves.
  function NewWindow(cfg: Config, next: int, now: int): (int, bool) {
    if cfg.period == 0 then (next, true)
    else if cfg.mode == Wait then (next, false)
    else if next == 0 then (now + cfg.period, false)
    else if next <= now then (now + cfg.period, true)
    else (next, false)
  }

  // isExpire
  predicate Expired(cfg: Config, time: int, now: int, isNewWindow: bool) {
    if cfg.period == 0 then true
    else if cfg.mode == Wait then time > 0 && time + cfg.period < now
    else isNewWindow
  }

  // CheckAndResetSilent
  function Reset(cfg: Config, s: State, now: int): State {
    var (next, isNewWindow) := NewWindow(cfg, s.nextWindowTime, now);
    State(map url | url in s.datas && !Expired(cfg, s.datas[url].silentTime, now, isNewWindow) :: s.datas[url], next)
  }

  // ---------------------------------------------------------------- runs

  datatype Event = Ask(url: PidUrl, now: int) | Check(now: int)

  function Step(cfg: Config, s: State, e: Event): State {
    match e
    case Ask(url, now) => Asked(cfg, s, url, now).0
    case Check(now) => Reset(cfg, s, now)
  }

  function After(cfg: Config, events: seq<Event>): State {
    if events == [] then State(map[], 0) else Step(cfg, After(cfg, events[..|events| - 1]), events[|events| - 1])
  }

  // The state before an event of a run.
  function Before(cfg: Config, events: seq<Event>, i: nat): State
    requires i <= |events|
  {
    After(cfg, events[..i])
  }

  // Whether an event is a question for the URL that is answered "not silent".
  predicate Allows(cfg: Config, events: seq<Event>, i: nat, url: PidUrl)
    requires i < |events|
  {
    events[i].Ask? && events[i].url == url && !Asked(cfg, Before(cfg, events, i), url, events[i].now).1
  }

  // How often the URL is allowed from event `a` on and before event `b`.
  function Allowed(cfg: Config, events: seq<Event>, url: PidUrl, a: nat, b: nat): nat
    requires a <= b <= |events|
    decreases b - a
  {
    if a == b then 0
    else Allowed(cfg, events, url, a, b - 1) + if Allows(cfg, events, b - 1, url) then 1 else 0
  }

  // The clock is past its epoch and never goes back.
  ghost predicate Clocked(events: seq<Event>) {
    && (forall i :: 0 <= i < |events| ==> 0 < events[i].now)
    && (forall i, j :: 0 <= i < j < |events| ==> events[i].now <= events[j].now)
  }

  lemma BeforeStep(cfg: Config, events: seq<Event>, i: nat)
    requires i < |events|
    ensures Before(cfg, events, i + 1) == Step(cfg, Before(cfg, events, i), events[i])
  {
    assert events[..i + 1][..i] == events[..i];
  }

  // ---------------------------------------------------------------- window mode: the rate bound

  // How many questions would still be allowed if no window began.
  function Remaining(cfg: Config, s: State, url: PidUrl): int {
    if url in s.datas then s.datas[url].leftCount else cfg.count
  }

  // Whether a check begins a new window.
  predicate Begins(cfg: Config, s: State, e: Event) {
    e.Check? && NewWindow(cfg, s.nextWindowTime, e.now).1
  }

  // The windows begun from event `a` on and before event `b`.
  function Windows(cfg: Config, events: seq<Event>, a: nat, b: nat): nat
    requires a <= b <= |events|
    decreases b - a
  {
    if a == b then 0
    else Windows(cfg, events, a, b - 1) + if Begins(cfg, Before(cfg, events, b - 1), events[b - 1]) then 1 else 0
  }

  ghost predicate Counting(cfg: Config, s: State) {
    forall url :: url in s.datas ==> 0 <= s.datas[url].leftCount <= cfg.count
  }

  lemma {:induction false} AfterIsCounting(cfg: Config, events: seq<Event>)
    requires cfg.count > 0 && cfg.period > 0
    ensures Counting(cfg, After(cfg, events))
  {
    if events != [] {
      AfterIsCounting(cfg, events[..|events| - 1]);
    }
  }

  // Each answer uses up one of what remains; only a new window gives more.
  lemma StepUsesUp(cfg: Config, s: State, e: Event, url: PidUrl)
    requires cfg.count > 0 && cfg.period > 0 && cfg.mode == Window && Counting(cfg, s)
    ensures var used := if e.Ask? && e.url == url && !Asked(cfg, s, url, e.now).1 then 1 else 0;
            var given := if Begins(cfg, s, e) then cfg.count else 0;
            used + Remaining(cfg, Step(cfg, s, e), url) <= Remaining(cfg, s, url) + given
  {
  }

  function Times(n: nat, c: int): int {
    if n == 0 then 0 else Times(n - 1, c) + c
  }

  lemma {:induction false} TimesIsProduct(n: nat, c: int)
    ensures Times(n, c) == n * c
  {
    if n > 0 {
      TimesIsProduct(n - 1, c);
      assert (n - 1) * c + c == n * c;
    }
  }

  lemma {:induction false} TimesMonotone(m: nat, n: nat, c: int)
    requires m <= n && 0 <= c
    ensures Times(m, c) <= Times(n, c)
  {
    if m < n {
      TimesMonotone(m, n - 1, c);
    }
  }

  lemma {:induction false} AllowedPerWindow(cfg: Config, events: seq<Event>, url: PidUrl, a: nat, b: nat)
    requires cfg.count > 0 && cfg.period > 0 && cfg.mode == Window && a <= b <= |events|
    ensures Allowed(cfg, events, url, a, b) + Remaining(cfg, Before(cfg, events, b), url)
         <= Times(Windows(cfg, events, a, b) + 1, cfg.count)
    decreases b - a
  {
    if a == b {
      AfterIsCounting(cfg, events[..a]);
      assert Times(1, cfg.count) == Times(0, cfg.count) + cfg.count;
    } else {
      AllowedPerWindow(cfg, events, url, a, b - 1);
      AfterIsCounting(cfg, events[..b - 1]);
      BeforeStep(cfg, events, b - 1);
      StepUsesUp(cfg, Before(cfg, events, b - 1), events[b - 1], url);
    }
  }

  // A window begins when the one before it has lasted a period, and says when the next one may.
  lemma StepBegins(cfg: Config, s: State, e: Event)
    requires cfg.period > 0 && cfg.mode == Window
    ensures var next := Step(cfg, s, e).nextWindowTime;
            if Begins(cfg, s, e) then s.nextWindowTime <= e.now && next == e.now + cfg.period
            else s.nextWindowTime != 0 ==> next == s.nextWindowTime
  {
  }

  // Windows begin at least a period apart.
  lemma {:induction false} WindowsAreApart(cfg: Config, events: seq<Event>, a: nat, b: nat)
    requires cfg.period > 0 && cfg.mode == Window && a < b <= |events| && Clocked(events)
    ensures var w, next := Windows(cfg, events, a, b), Before(cfg, events, b).nextWindowTime;
            w > 0 ==> events[a].now + Times(w, cfg.period) <= next <= events[b - 1].now + cfg.period
    decreases b - a
  {
    var before := Before(cfg, events, b - 1);
    BeforeStep(cfg, events, b - 1);
    StepBegins(cfg, before, events[b - 1]);
    if a < b - 1 {
      WindowsAreApart(cfg, events, a, b - 1);
      TimesMonotone(0, Windows(cfg, events, a, b - 1), cfg.period);
    } else {
      assert Windows(cfg, events, a, a) == 0 && Times(1, cfg.period) == Times(0, cfg.period) + cfg.period;
    }
  }

  // In a time span T one URL is allowed at most count * (T / period + 2) times.
  lemma RateBound(cfg: Config, events: seq<Event>, url: PidUrl, a: nat, b: nat)
    requires cfg.count > 0 && cfg.period > 0 && cfg.mode == Window && Clocked(events) && a < b <= |events|
    ensures Allowed(cfg, events, url, a, b) <= cfg.count * ((events[b - 1].now - events[a].now) / cfg.period + 2)
  {
    var w := Windows(cfg, events, a, b);
    assert Allowed(cfg, events, url, a, b) <= Times(w + 1, cfg.count) by {
      AllowedPerWindow(cfg, events, url, a, b);
      AfterIsCounting(cfg, events[..b]);
    }
    WindowsAreApart(cfg, events, a, b);
    AtMost(w, events[b - 1].now - events[a].now, cfg.period, cfg.count);
  }

  lemma AtMost(w: nat, t: nat, period: int, count: int)
    requires 0 < period && 0 < count && (w > 0 ==> Times(w, period) <= t + period)
    ensures Times(w + 1, count) <= count * (t / period + 2)
  {
    FewWindows(w, t, period);
    var n := t / period + 2;
    TimesMonotone(w + 1, n, count);
    TimesIsProduct(n, count);
  }

  lemma FewWindows(w: nat, t: nat, period: int)
    requires 0 < period && (w > 0 ==> Times(w, period) <= t + period)
    ensures w <= t / period + 1
  {
    var q := t / period;
    assert t == q * period + t % period;
    TimesIsProduct(q + 2, period);
    assert (q + 2) * period == q * period + 2 * period;
    TimesTell(w, q + 2, period);
  }

  lemma TimesTell(w: nat, n: nat, c: int)
    requires 0 < n && 0 < c && (w > 0 ==> Times(w, c) < Times(n, c))
    ensures w < n
  {
    if n <= w {
      TimesMonotone(n, w, c);
    }
  }

  // ---------------------------------------------------------------- wait mode: the pause

  // An entry that is used up remembers when, unless one answer was all it had.
  ghost predicate Waiting(cfg: Config, s: State, now: int) {
    forall url :: url in s.datas ==>
      var d := s.datas[url];
      && 0 <= d.leftCount < cfg.count
      && if d.leftCount == 0 && cfg.count >= 2 then 0 < d.silentTime <= now else d.silentTime == 0
  }

  lemma {:induction false} AfterIsWaiting(cfg: Config, events: seq<Event>, now: int)
    requires cfg.count > 0 && cfg.period > 0 && cfg.mode == Wait && Clocked(events)
    requires forall i :: 0 <= i < |events| ==> events[i].now <= now
    ensures Waiting(cfg, After(cfg, events), now)
  {
    if events != [] {
      AfterIsWaiting(cfg, events[..|events| - 1], now);
    }
  }

  // From the moment a URL's last answer is used up, at `since`, up to event b.
  lemma {:induction false} StaysSilent(cfg: Config, events: seq<Event>, url: PidUrl, since: int, a: nat, b: nat)
    requires cfg.count > 0 && cfg.period > 0 && cfg.mode == Wait && a <= b <= |events|
    requires url in Before(cfg, events, a).datas && Before(cfg, events, a).datas[url] == Data(0, since)
    requires forall i :: a <= i < b ==> since <= 0 || events[i].now <= since + cfg.period
    ensures url in Before(cfg, events, b).datas && Before(cfg, events, b).datas[url] == Data(0, since)
    decreases b - a
  {
    if a < b {
      StaysSilent(cfg, events, url, since, a, b - 1);
      BeforeStep(cfg, events, b - 1);
    }
  }

  // A used-up URL is not allowed again until strictly more than a period later.
  lemma PauseIsKept(cfg: Config, events: seq<Event>, url: PidUrl, a: nat, b: nat)
    requires cfg.count >= 2 && cfg.period > 0 && cfg.mode == Wait && Clocked(events) && a < b < |events|
    requires Allows(cfg, events, a, url) && Remaining(cfg, Before(cfg, events, a + 1), url) == 0
    requires Allows(cfg, events, b, url)
    ensures events[a].now + cfg.period < events[b].now
  {
    BeforeStep(cfg, events, a);
    if events[b].now <= events[a].now + cfg.period {
      StaysSilent(cfg, events, url, events[a].now, a + 1, b);
      assert false;
    }
  }

  // With a count of one the entry never remembers when it was used up: the URL is allowed once, ever.
  lemma CountOneNeverReopens(cfg: Config, events: seq<Event>, url: PidUrl, a: nat, b: nat)
    requires cfg.count == 1 && cfg.period > 0 && cfg.mode == Wait && Clocked(events) && a < b < |events|
    requires Allows(cfg, events, a, url)
    ensures !Allows(cfg, events, b, url)
  {
    BeforeStep(cfg, events, a);
    AfterIsWaiting(cfg, events[..a], events[a].now);
    StaysSilent(cfg, events, url, 0, a + 1, b);
  }

  // Reopening exactly: some check from now on lets a used-up URL in again if and only if the count is at
  // least two.
  lemma ReopensExactly(cfg: Config, events: seq<Event>, url: PidUrl)
    requires cfg.count > 0 && cfg.period > 0 && cfg.mode == Wait && Clocked(events) && events != []
    requires url in After(cfg, events).datas && After(cfg, events).datas[url].leftCount == 0
    ensures cfg.count >= 2
       <==> exists now :: events[|events| - 1].now <= now && url !in Reset(cfg, After(cfg, events), now).datas
  {
    var s := After(cfg, events);
    AfterIsWaiting(cfg, events, events[|events| - 1].now);
    var now := events[|events| - 1].now + cfg.period + 1;
    if cfg.count >= 2 {
      assert url !in Reset(cfg, s, now).datas;
    }
  }

  // ---------------------------------------------------------------- the object

  class Silent {
    var pidUrlDatas: Datas
    const count: int
    const period: int
    const mode: Mode
    var nextWindowTime: int

    function Settings(): Config {
      Config(count, period, mode)
    }

    ghost function View(): State
      reads this
    {
      State(pidUrlDatas, nextWindowTime)
    }

    constructor (silentCount: int, silentPeriod: int, silentMode: string)
      ensures Settings() == Config(silentCount, silentPeriod, if silentMode == "wait" then Wait else Window)
      ensures View() == After(Settings(), [])
    {
      count, period := silentCount, silentPeriod;
      mode := if silentMode == "wait" then Wait else Window;
      pidUrlDatas, nextWindowTime := map[], 0;
    }

    method IsSilent(pidUrl: PidUrl, now: int) returns (silent: bool)
      modifies this
      ensures (View(), silent) == Asked(Settings(), old(View()), pidUrl, now)
    {
      if count <= 0 {
        return true;
      }
      if period <= 0 {
        return false;
      }
      if pidUrl in pidUrlDatas {
        var d := pidUrlDatas[pidUrl];
        silent := d.leftCount <= 0;
        if d.leftCount == 1 {
          d := Data(0, now);
        } else if !silent {
          d := Data(d.leftCount - 1, 0);
        }
        pidUrlDatas := pidUrlDatas[pidUrl := d];
      } else {
        pidUrlDatas := pidUrlDatas[pidUrl := Data(count - 1, 0)];
        silent := false;
      }
    }

    method IsNewWindow(duration: int, now: int) returns (r: bool)
      requires duration == period
      modifies this`nextWindowTime
      ensures (nextWindowTime, r) == NewWindow(Settings(), old(nextWindowTime), now)
    {
      if duration == 0 {
        return true;
      }
      if mode == Wait {
        return false;
      }
      if nextWindowTime == 0 {
        nextWindowTime := now + duration;
        return false;
      }
      if nextWindowTime <= now {
        nextWindowTime := now + duration;
        return true;
      }
      return false;
    }

    method CheckAndResetSilent(now: int)
      modifies this
      ensures View() == Reset(Settings(), old(View()), now)
    {
      var isNewWindow := IsNewWindow(period, now);
      ghost var was := pidUrlDatas;
      var rest := pidUrlDatas.Keys;
      while rest != {}
        invariant rest <= was.Keys
        invariant nextWindowTime == NewWindow(Settings(), old(nextWindowTime), now).0
        invariant pidUrlDatas == map url | url in was
                    && (url in rest || !Expired(Settings(), was[url].silentTime, now, isNewWindow)) :: was[url]
      {
        var k :| k in rest;
        rest := rest - {k};
        if Expired(Settings(), pidUrlDatas[k].silentTime, now, isNewWindow) {
          pidUrlDatas := pidUrlDatas - {k};
        }
      }
    }
  }
}
