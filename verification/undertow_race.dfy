// The two halves of one request handled at the same time: each handler looks into the other's map and,
// if it finds nothing, stores into its own; the two operations are not one step.
module UndertowRaces {
  import opened UndertowJoining

  datatype Step = IoLook | IoStore | TaskLook | TaskStore

  // How far a handler has come.
  datatype Progress = Before | Missed | Done(out: Outcome)

  datatype Meeting = Meeting(cache: Cache, io: Progress, task: Progress)

  // The two arrivals, and what the scan of their segments found.
  datatype Pair = Pair(io: Arrival, task: Arrival, key: Key, routeUrl: string) {
    ghost predicate Valid() {
      HalfOf(io.segment) == Io(key) && HalfOf(task.segment) == Task(key, routeUrl)
    }
  }

  // LoadAndDelete, or Store if that missed; a handler that found the other half stores nothing.
  function Take(p: Pair, m: Meeting, step: Step): Meeting {
    var c := m.cache;
    match step
    case IoLook =>
      if p.key in c.routeUrls then
        m.(cache := c.(routeUrls := c.routeUrls - {p.key}),
           io := Done(Emitted(RenamedFirst(p.io.ptd, c.routeUrls[p.key]))))
      else m.(io := Missed)
    case IoStore =>
      if m.io.Missed? then m.(cache := c.(ioTraces := c.ioTraces[p.key := p.io.ptd]), io := Done(HeldBack)) else m
    case TaskLook =>
      if p.key in c.ioTraces then
        m.(cache := c.(ioTraces := c.ioTraces - {p.key}),
           task := Done(Emitted(p.task.ptd + JoinedTo(c.ioTraces[p.key], p.routeUrl))))
      else m.(task := Missed)
    case TaskStore =>
      if m.task.Missed? then m.(cache := c.(routeUrls := c.routeUrls[p.key := p.routeUrl]),
                                task := Done(Emitted(p.task.ptd)))
      else m
  }

  function Play(p: Pair, m: Meeting, steps: seq<Step>): Meeting
    decreases |steps|
  {
    if steps == [] then m else Play(p, Take(p, m, steps[0]), steps[1..])
  }

  function Start(c: Cache): Meeting {
    Meeting(c, Before, Before)
  }

  // Each handler looks before it stores.
  predicate Schedule(steps: seq<Step>) {
    && |steps| == 4
    && (forall i, j :: 0 <= i < j < 4 ==> steps[i] != steps[j])
    && (forall i, j :: 0 <= i < j < 4 ==>
          !(steps[i] == IoStore && steps[j] == IoLook) && !(steps[i] == TaskStore && steps[j] == TaskLook))
  }

  // Both handlers look before either of them stores.
  predicate BothLookFirst(steps: seq<Step>) {
    |steps| == 4 && steps[0] in {IoLook, TaskLook} && steps[1] in {IoLook, TaskLook}
  }

  lemma PlayFour(p: Pair, m: Meeting, a: Step, b: Step, c: Step, d: Step)
    ensures Play(p, m, [a, b, c, d]) == Take(p, Take(p, Take(p, Take(p, m, a), b), c), d)
  {
    assert [a, b, c, d][1..] == [b, c, d] && [b, c, d][1..] == [c, d] && [c, d][1..] == [d] && [d][1..] == [];
    var m1 := Take(p, m, a);
    var m2 := Take(p, m1, b);
    var m3 := Take(p, m2, c);
    assert Play(p, m1, [b, c, d]) == Play(p, m2, [c, d]);
    assert Play(p, m2, [c, d]) == Play(p, m3, [d]);
    assert Play(p, m3, [d]) == Play(p, Take(p, m3, d), []);
  }

  // A handler that is not interrupted does what one arrival does.
  lemma OneAfterTheOther(p: Pair, c: Cache)
    requires p.Valid() && p.key !in c.ioTraces && p.key !in c.routeUrls
    ensures var (c1, first) := Join(c, p.io);
            var (c2, second) := Join(c1, p.task);
            Play(p, Start(c), [IoLook, IoStore, TaskLook, TaskStore]) == Meeting(c2, Done(first), Done(second))
    ensures var (c1, first) := Join(c, p.task);
            var (c2, second) := Join(c1, p.io);
            Play(p, Start(c), [TaskLook, TaskStore, IoLook, IoStore]) == Meeting(c2, Done(second), Done(first))
  {
    PlayFour(p, Start(c), IoLook, IoStore, TaskLook, TaskStore);
    PlayFour(p, Start(c), TaskLook, TaskStore, IoLook, IoStore);
  }

  // How the two handlers can end: the halves joined by the later of the two, or both in the maps.
  ghost predicate Met(p: Pair, c: Cache, m: Meeting) {
    && m.cache == c
    && ((m.io == Done(HeldBack) && m.task == Done(Emitted(p.task.ptd + JoinedTo(p.io.ptd, p.routeUrl))))
        || (m.io == Done(Emitted(RenamedFirst(p.io.ptd, p.routeUrl))) && m.task == Done(Emitted(p.task.ptd))))
  }

  ghost predicate Parted(p: Pair, c: Cache, m: Meeting) {
    && m.cache == Cache(c.ioTraces[p.key := p.io.ptd], c.routeUrls[p.key := p.routeUrl])
    && m.io == Done(HeldBack) && m.task == Done(Emitted(p.task.ptd))
  }

  lemma StoreAndRemove<T>(held: map<Key, T>, key: Key, x: T)
    requires key !in held
    ensures held[key := x] - {key} == held
  {
  }

  // The halves miss each other exactly when both handlers look before either stores: then each waits in
  // its map for the other, and the I/O half is not given out. Under every other schedule they are
  // joined and neither map holds the key.
  lemma MissEachOtherExactly(p: Pair, c: Cache, steps: seq<Step>)
    requires p.Valid() && p.key !in c.ioTraces && p.key !in c.routeUrls && Schedule(steps)
    ensures if BothLookFirst(steps) then Parted(p, c, Play(p, Start(c), steps)) else Met(p, c, Play(p, Start(c), steps))
  {
    var a, b, d, e := steps[0], steps[1], steps[2], steps[3];
    assert steps == [a, b, d, e];
    PlayFour(p, Start(c), a, b, d, e);
    StoreAndRemove(c.ioTraces, p.key, p.io.ptd);
    StoreAndRemove(c.routeUrls, p.key, p.routeUrl);
  }
}
