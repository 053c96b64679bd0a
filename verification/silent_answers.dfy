// Exactly which questions the limit answers "not silent", from the questions and checks alone.
module SilentAnswers {
  import opened Silencing

  // How many questions for the URL there are from event `a` on and before event `b`.
  function Asks(events: seq<Event>, url: PidUrl, a: nat, b: nat): nat
    requires a <= b <= |events|
    decreases b - a
  {
    if a == b then 0
    else Asks(events, url, a, b - 1) + if events[b - 1].Ask? && events[b - 1].url == url then 1 else 0
  }

  lemma {:induction false} AsksSplit(events: seq<Event>, url: PidUrl, a: nat, m: nat, b: nat)
    requires a <= m <= b <= |events|
    ensures Asks(events, url, a, b) == Asks(events, url, a, m) + Asks(events, url, m, b)
    decreases b
  {
    if m < b {
      AsksSplit(events, url, a, m, b - 1);
    }
  }

  // ---------------------------------------------------------------- a limit that is switched off

  // A count that is not positive allows nothing; with one, a period that is not positive allows everything.
  lemma OffExactly(cfg: Config, events: seq<Event>, i: nat, url: PidUrl)
    requires i < |events| && events[i].Ask? && events[i].url == url
    ensures cfg.count <= 0 ==> !Allows(cfg, events, i, url)
    ensures cfg.count > 0 && cfg.period <= 0 ==> Allows(cfg, events, i, url)
  {
  }

  // Without a period every check forgets all URLs.
  lemma NoPeriodForgets(cfg: Config, s: State, now: int)
    requires cfg.period == 0
    ensures Reset(cfg, s, now) == s.(datas := map[])
  {
  }

  // ---------------------------------------------------------------- window mode

  // The check from which the window before event b lasts: the first one of the run, or the last one that
  // came a period or more after the one before.
  function WindowStart(period: int, events: seq<Event>, b: nat): (r: int)
    requires b <= |events|
    ensures -1 <= r < b && (r >= 0 ==> events[r].Check?)
  {
    if b == 0 then -1
    else
      var r, e := WindowStart(period, events, b - 1), events[b - 1];
      if e.Check? && (r == -1 || events[r].now + period <= e.now) then b - 1 else r
  }

  // A check that begins a new window; the first one of a run does not.
  predicate StartsAnew(period: int, events: seq<Event>, i: nat)
    requires i < |events|
  {
    var r := WindowStart(period, events, i);
    events[i].Check? && r >= 0 && events[r].now + period <= events[i].now
  }

  lemma {:induction false} NextStartIs(cfg: Config, events: seq<Event>, b: nat)
    requires cfg.period > 0 && cfg.mode == Window && b <= |events| && Clocked(events)
    ensures var r := WindowStart(cfg.period, events, b);
            Before(cfg, events, b).nextWindowTime == if r == -1 then 0 else events[r].now + cfg.period
  {
    if b > 0 {
      NextStartIs(cfg, events, b - 1);
      BeforeStep(cfg, events, b - 1);
    }
  }

  // A check that begins a window forgets every URL, any other event none.
  lemma CheckClears(cfg: Config, events: seq<Event>, i: nat)
    requires cfg.period > 0 && cfg.mode == Window && i < |events| && Clocked(events)
    ensures Begins(cfg, Before(cfg, events, i), events[i]) <==> StartsAnew(cfg.period, events, i)
    ensures StartsAnew(cfg.period, events, i) ==> Before(cfg, events, i + 1).datas == map[]
    ensures events[i].Check? && !StartsAnew(cfg.period, events, i) ==>
              Before(cfg, events, i + 1).datas == Before(cfg, events, i).datas
  {
    NextStartIs(cfg, events, i);
    BeforeStep(cfg, events, i);
  }

  function Least(x: int, y: int): int {
    if x <= y then x else y
  }

  // What is left of a URL's answers after so many questions.
  ghost predicate LeftIs(cfg: Config, s: State, url: PidUrl, asks: nat) {
    if asks == 0 then url !in s.datas
    else url in s.datas && s.datas[url].leftCount == cfg.count - Least(asks, cfg.count)
  }

  // A question leaves one answer less and is allowed while there is one.
  lemma AskLeaves(cfg: Config, s: State, url: PidUrl, now: int, other: PidUrl, asks: nat)
    requires cfg.count > 0 && cfg.period > 0 && LeftIs(cfg, s, other, asks)
    ensures LeftIs(cfg, Asked(cfg, s, url, now).0, other, if url == other then asks + 1 else asks)
    ensures url == other ==> (!Asked(cfg, s, url, now).1 <==> asks < cfg.count)
  {
  }

  // No check from a on and before b begins a window.
  ghost predicate OneWindow(period: int, events: seq<Event>, a: nat, b: nat)
    requires a <= b <= |events|
  {
    forall i :: a <= i < b ==> !StartsAnew(period, events, i)
  }

  // A window begins with event a: the run does, or the check before does.
  predicate BeginsAt(period: int, events: seq<Event>, a: nat)
    requires a <= |events|
  {
    a == 0 || StartsAnew(period, events, a - 1)
  }

  lemma {:induction false} LeftInWindow(cfg: Config, events: seq<Event>, url: PidUrl, a: nat, b: nat)
    requires cfg.count > 0 && cfg.period > 0 && cfg.mode == Window && Clocked(events)
    requires a <= b <= |events| && BeginsAt(cfg.period, events, a) && OneWindow(cfg.period, events, a, b)
    ensures LeftIs(cfg, Before(cfg, events, b), url, Asks(events, url, a, b))
    decreases b
  {
    if a == b {
      if a > 0 {
        CheckClears(cfg, events, a - 1);
      }
    } else {
      LeftInWindow(cfg, events, url, a, b - 1);
      BeforeStep(cfg, events, b - 1);
      assert !StartsAnew(cfg.period, events, b - 1);
      if events[b - 1].Check? {
        CheckClears(cfg, events, b - 1);
      } else {
        AskLeaves(cfg, Before(cfg, events, b - 1), events[b - 1].url, events[b - 1].now, url,
                  Asks(events, url, a, b - 1));
      }
    }
  }

  // In window mode a question is allowed if and only if fewer than `count` questions for its URL came
  // since the window began, whatever came before.
  lemma WindowAllowsExactly(cfg: Config, events: seq<Event>, url: PidUrl, a: nat, i: nat)
    requires cfg.count > 0 && cfg.period > 0 && cfg.mode == Window && Clocked(events)
    requires a <= i < |events| && BeginsAt(cfg.period, events, a) && OneWindow(cfg.period, events, a, i)
    requires events[i].Ask? && events[i].url == url
    ensures Allows(cfg, events, i, url) <==> Asks(events, url, a, i) < cfg.count
  {
    LeftInWindow(cfg, events, url, a, i);
    AskLeaves(cfg, Before(cfg, events, i), url, events[i].now, url, Asks(events, url, a, i));
  }

  // So in each window a URL gets as many answers as it has questions, up to the count.
  lemma {:induction false} AllowedInWindow(cfg: Config, events: seq<Event>, url: PidUrl, a: nat, b: nat)
    requires cfg.count > 0 && cfg.period > 0 && cfg.mode == Window && Clocked(events)
    requires a <= b <= |events| && BeginsAt(cfg.period, events, a) && OneWindow(cfg.period, events, a, b)
    ensures Allowed(cfg, events, url, a, b) == Least(cfg.count, Asks(events, url, a, b))
    decreases b
  {
    if a < b {
      AllowedInWindow(cfg, events, url, a, b - 1);
      if events[b - 1].Ask? && events[b - 1].url == url {
        WindowAllowsExactly(cfg, events, url, a, b - 1);
      }
    }
  }

  // ---------------------------------------------------------------- wait mode

  // The question that uses up the answers of a URL not known before event a.
  predicate UsesUp(cfg: Config, events: seq<Event>, url: PidUrl, a: nat, k: nat)
    requires a <= k < |events|
  {
    events[k].Ask? && events[k].url == url && Asks(events, url, a, k) == cfg.count - 1
  }

  // A check that comes strictly more than a period after it.
  ghost predicate Reopens(cfg: Config, events: seq<Event>, url: PidUrl, a: nat, c: nat)
    requires a <= c < |events|
  {
    && events[c].Check? && cfg.count >= 2
    && exists k: nat :: a <= k < c && UsesUp(cfg, events, url, a, k) && events[k].now + cfg.period < events[c].now
  }

  ghost predicate NotReopened(cfg: Config, events: seq<Event>, url: PidUrl, a: nat, b: nat)
    requires a <= b <= |events|
  {
    forall c: nat :: a <= c < b ==> !Reopens(cfg, events, url, a, c)
  }

  // When the answers were used up, if that is remembered.
  ghost predicate UsedUpAt(cfg: Config, events: seq<Event>, s: State, url: PidUrl, a: nat, b: nat)
    requires a <= b <= |events|
  {
    url in s.datas ==>
      if Asks(events, url, a, b) < cfg.count || cfg.count == 1 then s.datas[url].silentTime == 0
      else exists k: nat :: a <= k < b && UsesUp(cfg, events, url, a, k) && s.datas[url].silentTime == events[k].now
  }

  lemma {:induction false} AsksGrow(events: seq<Event>, url: PidUrl, a: nat, m: nat, b: nat)
    requires a <= m <= b <= |events|
    ensures Asks(events, url, a, m) <= Asks(events, url, a, b)
    ensures m < b && events[m].Ask? && events[m].url == url ==> Asks(events, url, a, m) < Asks(events, url, a, b)
    decreases b
  {
    if m < b {
      AsksGrow(events, url, a, m, b - 1);
    }
  }

  // The answers are used up by one question only.
  lemma UsedUpOnce(cfg: Config, events: seq<Event>, url: PidUrl, a: nat, k: nat, l: nat)
    requires a <= k < |events| && a <= l < |events|
    requires UsesUp(cfg, events, url, a, k) && UsesUp(cfg, events, url, a, l)
    ensures k == l
  {
    if k < l {
      AsksGrow(events, url, a, k, l);
    } else if l < k {
      AsksGrow(events, url, a, l, k);
    }
  }

  ghost predicate KnownInWait(cfg: Config, events: seq<Event>, url: PidUrl, a: nat, b: nat)
    requires a <= b <= |events|
  {
    var s := Before(cfg, events, b);
    LeftIs(cfg, s, url, Asks(events, url, a, b)) && UsedUpAt(cfg, events, s, url, a, b)
  }

  lemma WaitOneMore(cfg: Config, events: seq<Event>, url: PidUrl, a: nat, i: nat)
    requires cfg.count > 0 && cfg.period > 0 && cfg.mode == Wait && Clocked(events) && a <= i < |events|
    requires KnownInWait(cfg, events, url, a, i) && !Reopens(cfg, events, url, a, i)
    ensures KnownInWait(cfg, events, url, a, i + 1)
  {
    if events[i].Check? {
      CheckKeeps(cfg, events, url, a, i);
    } else {
      AskKeeps(cfg, events, url, a, i);
    }
  }

  lemma {:induction false} LeftInWait(cfg: Config, events: seq<Event>, url: PidUrl, a: nat, b: nat)
    requires cfg.count > 0 && cfg.period > 0 && cfg.mode == Wait && Clocked(events) && a <= b <= |events|
    requires url !in Before(cfg, events, a).datas && NotReopened(cfg, events, url, a, b)
    ensures KnownInWait(cfg, events, url, a, b)
    decreases b
  {
    if a < b {
      LeftInWait(cfg, events, url, a, b - 1);
      WaitOneMore(cfg, events, url, a, b - 1);
    }
  }

  lemma CheckKeeps(cfg: Config, events: seq<Event>, url: PidUrl, a: nat, c: nat)
    requires cfg.count > 0 && cfg.period > 0 && cfg.mode == Wait && Clocked(events) && a <= c < |events|
    requires events[c].Check? && LeftIs(cfg, Before(cfg, events, c), url, Asks(events, url, a, c))
    requires UsedUpAt(cfg, events, Before(cfg, events, c), url, a, c)
    ensures !Reopens(cfg, events, url, a, c) ==>
              LeftIs(cfg, Before(cfg, events, c + 1), url, Asks(events, url, a, c + 1))
              && UsedUpAt(cfg, events, Before(cfg, events, c + 1), url, a, c + 1)
    ensures Reopens(cfg, events, url, a, c) ==> url !in Before(cfg, events, c + 1).datas
  {
    BeforeStep(cfg, events, c);
    var s := Before(cfg, events, c);
    if Reopens(cfg, events, url, a, c) {
      var k: nat :| a <= k < c && UsesUp(cfg, events, url, a, k) && events[k].now + cfg.period < events[c].now;
      AsksGrow(events, url, a, k, c);
      if url in s.datas {
        var l: nat :| a <= l < c && UsesUp(cfg, events, url, a, l) && s.datas[url].silentTime == events[l].now;
        UsedUpOnce(cfg, events, url, a, k, l);
      }
    }
  }

  lemma AskKeeps(cfg: Config, events: seq<Event>, url: PidUrl, a: nat, i: nat)
    requires cfg.count > 0 && cfg.period > 0 && cfg.mode == Wait && Clocked(events) && a <= i < |events|
    requires events[i].Ask? && LeftIs(cfg, Before(cfg, events, i), url, Asks(events, url, a, i))
    requires UsedUpAt(cfg, events, Before(cfg, events, i), url, a, i)
    ensures LeftIs(cfg, Before(cfg, events, i + 1), url, Asks(events, url, a, i + 1))
    ensures UsedUpAt(cfg, events, Before(cfg, events, i + 1), url, a, i + 1)
  {
    BeforeStep(cfg, events, i);
    AskLeaves(cfg, Before(cfg, events, i), events[i].url, events[i].now, url, Asks(events, url, a, i));
    if events[i].url == url && Asks(events, url, a, i) == cfg.count - 1 {
      assert UsesUp(cfg, events, url, a, i);
    }
  }

  // In wait mode a question for a URL not known before event a is allowed if and only if fewer than
  // `count` came since, as long as no check reopened the URL.
  lemma WaitAllowsExactly(cfg: Config, events: seq<Event>, url: PidUrl, a: nat, i: nat)
    requires cfg.count > 0 && cfg.period > 0 && cfg.mode == Wait && Clocked(events) && a <= i < |events|
    requires url !in Before(cfg, events, a).datas && NotReopened(cfg, events, url, a, i)
    requires events[i].Ask? && events[i].url == url
    ensures Allows(cfg, events, i, url) <==> Asks(events, url, a, i) < cfg.count
  {
    LeftInWait(cfg, events, url, a, i);
    AskLeaves(cfg, Before(cfg, events, i), url, events[i].now, url, Asks(events, url, a, i));
  }

  // The first check that does makes the URL one that is not known.
  lemma ReopenedIsUnknown(cfg: Config, events: seq<Event>, url: PidUrl, a: nat, c: nat)
    requires cfg.count > 0 && cfg.period > 0 && cfg.mode == Wait && Clocked(events) && a <= c < |events|
    requires url !in Before(cfg, events, a).datas && NotReopened(cfg, events, url, a, c)
    requires Reopens(cfg, events, url, a, c)
    ensures url !in Before(cfg, events, c + 1).datas
  {
    LeftInWait(cfg, events, url, a, c);
    CheckKeeps(cfg, events, url, a, c);
  }
}
