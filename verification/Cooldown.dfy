/**
 The cooldown protocol behind every healing action: look the key up, decide later, act, and record
 the time, each under its own lock, while a cleaner prunes the map and a memory guard may empty it.
 The state machine keeps the full history of heals beside the pruned map.
 */
module Cooldown {
  import opened Text

  /** A recorded heal; the last two fields say which earlier heals its cooldown check could see. */
  datatype Heal = Heal(key: string, time: int, from: nat, upto: nat)

  datatype Worker =
    | Idle
    | Looked(key: string, seen: Option<int>, from: nat, upto: nat)
    | Acting(key: string, from: nat, upto: nat)

  datatype World = World(
    now: int,
    cooldown: int,
    cache: map<string, int>,
    history: seq<Heal>,
    forgotten: nat,
    workers: map<nat, Worker>)

  /** One atomic step of some goroutine, or of the clock. */
  datatype Step =
    | Tick(elapsed: nat)
    | Look(worker: nat, key: string)
    | Decide(worker: nat, needed: bool)
    | Record(worker: nat)
    | Abandon(worker: nat)
    | Clean(at: int)
    | Sanitize

  function At(w: World, worker: nat): Worker
  {
    if worker in w.workers then w.workers[worker] else Idle
  }

  /** The cooldown check against a looked-up time. */
  predicate Recent(seen: Option<int>, now: int, cooldown: int)
  {
    seen.Some? && now - seen.value < cooldown
  }

  function Lookup(cache: map<string, int>, key: string): Option<int>
  {
    if key in cache then Some(cache[key]) else None
  }

  /** The cleaner keeps an entry unless it is older than twice the cooldown. */
  function Pruned(cache: map<string, int>, now: int, cooldown: int): map<string, int>
  {
    map k | k in cache && !(now - cache[k] > 2 * cooldown) :: cache[k]
  }

  /** The cleaner reads the clock before it waits for the lock, so it may work with an older time. */
  predicate Enabled(w: World, step: Step)
  {
    match step
    case Tick(_) => true
    case Look(i, _) => At(w, i).Idle?
    case Decide(i, _) => At(w, i).Looked?
    case Record(i) => At(w, i).Acting?
    case Abandon(i) => At(w, i).Acting?
    case Clean(at) => at <= w.now
    case Sanitize => true
  }

  function Next(w: World, step: Step): World
    requires Enabled(w, step)
  {
    match step
    case Tick(d) => w.(now := w.now + d)
    case Look(i, k) =>
      w.(workers := w.workers[i := Looked(k, Lookup(w.cache, k), w.forgotten, |w.history|)])
    case Decide(i, needed) =>
      var p := At(w, i);
      w.(workers := w.workers[i := if Recent(p.seen, w.now, w.cooldown) || !needed then Idle
                                   else Acting(p.key, p.from, p.upto)])
    case Record(i) =>
      var p := At(w, i);
      w.(cache := w.cache[p.key := w.now],
         history := w.history + [Heal(p.key, w.now, p.from, p.upto)],
         workers := w.workers[i := Idle])
    case Abandon(i) => w.(workers := w.workers[i := Idle])
    case Clean(at) => w.(cache := Pruned(w.cache, at, w.cooldown))
    case Sanitize => w.(cache := map[], forgotten := |w.history|)
  }

  function Initial(now: int, cooldown: int): World
  {
    World(now, cooldown, map[], [], 0, map[])
  }

  /** A run: every step is enabled where it is taken. */
  predicate IsRun(worlds: seq<World>, steps: seq<Step>)
  {
    && |worlds| == |steps| + 1
    && worlds[0] == Initial(worlds[0].now, worlds[0].cooldown)
    && forall i :: 0 <= i < |steps| ==> Enabled(worlds[i], steps[i]) && worlds[i + 1] == Next(worlds[i], steps[i])
  }

  // ---------- The decision the full history would give ----------

  /** Some heal of the key among these is more recent than the cooldown. */
  predicate HistoryRecent(history: seq<Heal>, from: nat, upto: nat, key: string, now: int, cooldown: int)
    requires upto <= |history|
  {
    exists i :: from <= i < upto && history[i].key == key && now - history[i].time < cooldown
  }

  // ---------- The invariant ----------

  predicate TimesOk(w: World)
  {
    && w.forgotten <= |w.history|
    && (forall i :: 0 <= i < |w.history| ==> w.history[i].time <= w.now)
    && (forall i, j :: 0 <= i < j < |w.history| ==> w.history[i].time <= w.history[j].time)
    && (forall i :: 0 <= i < |w.history| ==> w.history[i].from <= w.history[i].upto <= i)
  }

  /** The map holds the latest remembered heal of each key; what it lacks was pruned for its age. */
  predicate CacheOk(w: World)
    requires w.forgotten <= |w.history|
  {
    && (forall k :: k in w.cache ==>
          exists i :: w.forgotten <= i < |w.history| && w.history[i].key == k && w.history[i].time == w.cache[k])
    && (forall i :: w.forgotten <= i < |w.history| ==>
          var h := w.history[i];
          if h.key in w.cache then h.time <= w.cache[h.key] else w.now - h.time > 2 * w.cooldown)
  }

  /** What a worker looked up stands for the whole history it could see. */
  predicate LookOk(w: World, p: Worker)
  {
    p.Looked? ==>
      && p.from <= p.upto <= |w.history|
      && (p.seen.Some? ==> exists i :: p.from <= i < p.upto && w.history[i].key == p.key && w.history[i].time == p.seen.value)
      && (forall i :: p.from <= i < p.upto && w.history[i].key == p.key ==>
            if p.seen.Some? then w.history[i].time <= p.seen.value else w.now - w.history[i].time > 2 * w.cooldown)
  }

  predicate ActOk(w: World, p: Worker)
  {
    p.Acting? ==>
      && p.from <= p.upto <= |w.history|
      && !HistoryRecent(w.history, p.from, p.upto, p.key, w.now, w.cooldown)
  }

  predicate WorkersOk(w: World)
  {
    forall i :: i in w.workers ==> LookOk(w, w.workers[i]) && ActOk(w, w.workers[i])
  }

  /** Heals are a cooldown apart whenever the later one's check could see the earlier one. */
  predicate SpacedOk(w: World)
  {
    forall i, j :: 0 <= i < j < |w.history| && w.history[i].key == w.history[j].key
                   && w.history[j].from <= i < w.history[j].upto
                   ==> w.history[j].time - w.history[i].time >= w.cooldown
  }

  predicate Inv(w: World)
  {
    TimesOk(w) && CacheOk(w) && WorkersOk(w) && SpacedOk(w)
  }

  lemma KeepTimes(w: World, step: Step)
    requires Inv(w) && Enabled(w, step)
    ensures TimesOk(Next(w, step))
  {
    if step.Record? && step.worker in w.workers {
      assert ActOk(w, w.workers[step.worker]);
    }
  }

  lemma KeepCache(w: World, step: Step)
    requires Inv(w) && Enabled(w, step)
    ensures TimesOk(Next(w, step)) && CacheOk(Next(w, step))
  {
    KeepTimes(w, step);
    if step.Record? {
      RecordKeepsCache(w, step);
    } else if step.Clean? {
      CleanKeepsCache(w, step);
    }
  }

  lemma RecordKeepsCache(w: World, step: Step)
    requires Inv(w) && step.Record? && Enabled(w, step)
    ensures w.forgotten <= |Next(w, step).history| && CacheOk(Next(w, step))
  {
    var w', n := Next(w, step), |w.history|;
    forall k | k in w'.cache
      ensures exists i :: w'.forgotten <= i < |w'.history| && w'.history[i].key == k && w'.history[i].time == w'.cache[k]
    {
      if k == w'.history[n].key {
        assert w'.history[n].time == w'.cache[k];
      } else {
        var i :| w.forgotten <= i < |w.history| && w.history[i].key == k && w.history[i].time == w.cache[k];
        assert w'.history[i] == w.history[i];
      }
    }
  }

  lemma CleanKeepsCache(w: World, step: Step)
    requires Inv(w) && step.Clean? && Enabled(w, step)
    ensures CacheOk(Next(w, step))
  {
    var w' := Next(w, step);
    forall k | k in w'.cache
      ensures exists i :: w'.forgotten <= i < |w'.history| && w'.history[i].key == k && w'.history[i].time == w'.cache[k]
    {
      assert k in w.cache;
    }
  }

  /** Decisions already taken stay justified: the clock only advances and the history only grows. */
  lemma KeepPending(w: World, step: Step, p: Worker)
    requires Inv(w) && Enabled(w, step) && LookOk(w, p) && ActOk(w, p)
    ensures LookOk(Next(w, step), p) && ActOk(Next(w, step), p)
  {
    var w' := Next(w, step);
    assert forall i :: 0 <= i < |w.history| ==> w'.history[i] == w.history[i];
  }

  lemma KeepWorkers(w: World, step: Step)
    requires Inv(w) && Enabled(w, step)
    ensures WorkersOk(Next(w, step))
  {
    var w' := Next(w, step);
    forall i | i in w'.workers ensures LookOk(w', w'.workers[i]) && ActOk(w', w'.workers[i]) {
      if i in w.workers && w'.workers[i] == w.workers[i] {
        KeepPending(w, step, w.workers[i]);
      } else if step.Look? {
      } else if step.Decide? && w'.workers[i].Acting? {
        DecidePasses(w, At(w, i));
      }
    }
  }

  /** The decision taken from the looked-up time is the one the history it stands for would give. */
  lemma DecidePasses(w: World, p: Worker)
    requires TimesOk(w) && p.Looked? && LookOk(w, p)
    ensures Recent(p.seen, w.now, w.cooldown) <==> HistoryRecent(w.history, p.from, p.upto, p.key, w.now, w.cooldown)
  {
    if p.seen.Some? {
      var i :| p.from <= i < p.upto && w.history[i].key == p.key && w.history[i].time == p.seen.value;
      if Recent(p.seen, w.now, w.cooldown) {
        assert w.now - w.history[i].time < w.cooldown;
      }
    }
  }

  lemma KeepSpaced(w: World, step: Step)
    requires Inv(w) && Enabled(w, step)
    ensures SpacedOk(Next(w, step))
  {
    if step.Record? {
      var w', n, p := Next(w, step), |w.history|, At(w, step.worker);
      assert ActOk(w, p);
      forall i, j | 0 <= i < j < |w'.history| && w'.history[i].key == w'.history[j].key
                    && w'.history[j].from <= i < w'.history[j].upto
        ensures w'.history[j].time - w'.history[i].time >= w'.cooldown
      {
        assert w'.history[i] == w.history[i];
        if j < n {
          assert w'.history[j] == w.history[j];
        } else {
          assert p.from <= i < p.upto && w.history[i].key == p.key;
        }
      }
    }
  }

  lemma {:induction false} RunKeepsInv(worlds: seq<World>, steps: seq<Step>, i: nat)
    requires IsRun(worlds, steps) && i < |worlds|
    ensures Inv(worlds[i])
  {
    if i > 0 {
      RunKeepsInv(worlds, steps, i - 1);
      KeepCache(worlds[i - 1], steps[i - 1]);
      KeepWorkers(worlds[i - 1], steps[i - 1]);
      KeepSpaced(worlds[i - 1], steps[i - 1]);
    }
  }

  // ---------- Main results ----------

  /**
   Refinement: at every moment of every run the pruned map gives, for every key, the same decision
   as the full history since the last sanitizing.
   */
  lemma CacheRefinesHistory(worlds: seq<World>, steps: seq<Step>, i: nat, key: string)
    requires IsRun(worlds, steps) && i < |worlds|
    ensures var w := worlds[i];
            && w.forgotten <= |w.history|
            && (Recent(Lookup(w.cache, key), w.now, w.cooldown) <==>
                HistoryRecent(w.history, w.forgotten, |w.history|, key, w.now, w.cooldown))
  {
    RunKeepsInv(worlds, steps, i);
    var w := worlds[i];
    if key in w.cache {
      var k :| w.forgotten <= k < |w.history| && w.history[k].key == key && w.history[k].time == w.cache[key];
      if Recent(Lookup(w.cache, key), w.now, w.cooldown) {
        assert w.now - w.history[k].time < w.cooldown;
      }
    }
  }

  /** The same for a decision taken after the lookup: it is the one the history seen at the lookup gives now. */
  lemma DecisionRefinesHistory(worlds: seq<World>, steps: seq<Step>, i: nat)
    requires IsRun(worlds, steps) && i < |steps| && steps[i].Decide? && steps[i].needed
    ensures var w, p := worlds[i], At(worlds[i], steps[i].worker);
            && p.upto <= |w.history|
            && (At(worlds[i + 1], steps[i].worker).Acting? <==>
                !HistoryRecent(w.history, p.from, p.upto, p.key, w.now, w.cooldown))
  {
    RunKeepsInv(worlds, steps, i);
    var p := At(worlds[i], steps[i].worker);
    assert LookOk(worlds[i], p);
    DecidePasses(worlds[i], p);
  }

  predicate NeverSanitized(steps: seq<Step>)
  {
    forall i :: 0 <= i < |steps| ==> !steps[i].Sanitize?
  }

  lemma {:induction false} NothingForgotten(worlds: seq<World>, steps: seq<Step>, i: nat)
    requires IsRun(worlds, steps) && NeverSanitized(steps) && i < |worlds|
    ensures worlds[i].forgotten == 0
    ensures forall k :: k in worlds[i].workers && !worlds[i].workers[k].Idle? ==> worlds[i].workers[k].from == 0
    ensures forall k :: 0 <= k < |worlds[i].history| ==> worlds[i].history[k].from == 0
  {
    if i > 0 {
      NothingForgotten(worlds, steps, i - 1);
      var w, w' := worlds[i - 1], worlds[i];
      if steps[i - 1].Record? {
        var n := |w.history|;
        forall k | 0 <= k < |w'.history| ensures w'.history[k].from == 0 {
          if k < n {
            assert w'.history[k] == w.history[k];
          }
        }
      }
    }
  }

  /**
   Any number of workers, any interleaving: two heals of one key closer than the cooldown mean that
   the later one's check was made before the earlier one was recorded, or that the map was sanitized
   between that record and that check.
   */
  lemma CloseHealsExplained(worlds: seq<World>, steps: seq<Step>, n: nat, i: nat, j: nat)
    requires IsRun(worlds, steps) && n < |worlds| && i < j < |worlds[n].history|
    requires worlds[n].history[i].key == worlds[n].history[j].key
    requires worlds[n].history[j].time - worlds[n].history[i].time < worlds[n].cooldown
    ensures worlds[n].history[j].upto <= i || i < worlds[n].history[j].from
    ensures NeverSanitized(steps) ==> worlds[n].history[j].upto <= i
  {
    RunKeepsInv(worlds, steps, n);
    if NeverSanitized(steps) {
      NothingForgotten(worlds, steps, n);
    }
  }

  /**
   No check passes inside the cooldown: once a heal of the key is on record (and not sanitized away),
   a check that looks after it and decides within the cooldown of it skips.
   */
  lemma NoPassInsideCooldown(worlds: seq<World>, steps: seq<Step>, i: nat, h: nat)
    requires IsRun(worlds, steps) && i < |steps| && steps[i].Decide?
    requires At(worlds[i], steps[i].worker).from <= h < At(worlds[i], steps[i].worker).upto <= |worlds[i].history|
    requires worlds[i].history[h].key == At(worlds[i], steps[i].worker).key
    requires worlds[i].now - worlds[i].history[h].time < worlds[i].cooldown
    ensures At(worlds[i + 1], steps[i].worker) == Idle
  {
    RunKeepsInv(worlds, steps, i);
    var p := At(worlds[i], steps[i].worker);
    assert LookOk(worlds[i], p);
    DecidePasses(worlds[i], p);
  }

  // ---------- Runs made by one sequential caller ----------

  /** A run under construction. */
  datatype Trace = Trace(worlds: seq<World>, steps: seq<Step>)

  ghost predicate Made(t: Trace)
  {
    IsRun(t.worlds, t.steps)
  }

  function Last(t: Trace): World
    requires t.worlds != []
  {
    t.worlds[|t.worlds| - 1]
  }

  /** Nobody is between a check and a record, and no check was ever made before an earlier record. */
  predicate Sequential(w: World)
  {
    At(w, 0).Idle? && forall i :: 0 <= i < |w.history| ==> w.history[i].upto == i
  }

  lemma Begin(now: int, cooldown: int) returns (t: Trace)
    ensures Made(t) && Last(t) == Initial(now, cooldown)
  {
    t := Trace([Initial(now, cooldown)], []);
  }

  lemma Take(t: Trace, step: Step) returns (t': Trace)
    requires Made(t) && Enabled(Last(t), step)
    ensures Made(t') && Last(t') == Next(Last(t), step) && t'.steps == t.steps + [step]
  {
    t' := Trace(t.worlds + [Next(Last(t), step)], t.steps + [step]);
    forall i | 0 <= i < |t'.steps| ensures Enabled(t'.worlds[i], t'.steps[i]) && t'.worlds[i + 1] == Next(t'.worlds[i], t'.steps[i]) {
      if i < |t.steps| {
        assert t'.worlds[i] == t.worlds[i] && t'.worlds[i + 1] == t.worlds[i + 1] && t'.steps[i] == t.steps[i];
      }
    }
  }

  /** A check that was recent, or that came to nothing; the caller is done at `ended`. */
  lemma Left(t: Trace, key: string, checked: int, ended: int) returns (t': Trace)
    requires Made(t) && Sequential(Last(t)) && Last(t).now <= checked <= ended
    ensures Made(t') && Sequential(Last(t'))
    ensures Last(t') == Last(t).(now := ended, workers := Last(t').workers)
  {
    t' := Take(t, Tick(checked - Last(t).now));
    t' := Take(t', Look(0, key));
    t' := Take(t', Decide(0, true));
    if At(Last(t'), 0).Acting? {
      t' := Take(t', Abandon(0));
    }
    t' := Take(t', Tick(ended - checked));
  }

  /** A check that passed, followed by the heal. */
  lemma Healed(t: Trace, key: string, checked: int, recorded: int) returns (t': Trace)
    requires Made(t) && Sequential(Last(t)) && Last(t).now <= checked <= recorded
    requires !Recent(Lookup(Last(t).cache, key), checked, Last(t).cooldown)
    ensures Made(t') && Sequential(Last(t'))
    ensures var w := Last(t);
            Last(t') == w.(now := recorded, cache := w.cache[key := recorded],
                           history := w.history + [Heal(key, recorded, w.forgotten, |w.history|)], workers := Last(t').workers)
  {
    t' := Take(t, Tick(checked - Last(t).now));
    t' := Take(t', Look(0, key));
    t' := Take(t', Decide(0, true));
    t' := Take(t', Tick(recorded - checked));
    t' := Take(t', Record(0));
  }

  /** The map was sanitized after heal `i` was recorded and before heal `j` was checked. */
  predicate SanitizedBetween(w: World, i: nat, j: nat)
    requires j < |w.history|
  {
    i < w.history[j].from
  }

  /** One caller alone heals no key twice within the cooldown, unless the map was sanitized between the two. */
  lemma SequentialIsSpaced(t: Trace, i: nat, j: nat)
    requires Made(t) && Sequential(Last(t)) && i < j < |Last(t).history|
    requires Last(t).history[i].key == Last(t).history[j].key && !SanitizedBetween(Last(t), i, j)
    ensures Last(t).history[j].time - Last(t).history[i].time >= Last(t).cooldown
  {
    if Last(t).history[j].time - Last(t).history[i].time < Last(t).cooldown {
      CloseHealsExplained(t.worlds, t.steps, |t.worlds| - 1, i, j);
    }
  }

  /** The wall clock, which never runs backwards. */
  class Clock {
    var now: int

    constructor (start: int)
      ensures now == start
    {
      now := start;
    }

    method Read() returns (time: int)
      modifies this
      ensures old(now) <= time == now
    {
      var elapsed: int :| elapsed >= 0;
      now := now + elapsed;
      time := now;
    }

    method AdvanceTo(time: int)
      requires now <= time
      modifies this
      ensures now == time
    {
      now := time;
    }
  }

  // ---------- What does shorten the spacing ----------

  /** Sanitizing does shorten the spacing: one worker alone then heals a key twice at one instant. */
  lemma SanitizeShortens(cooldown: int) returns (worlds: seq<World>, steps: seq<Step>)
    requires cooldown > 0
    ensures IsRun(worlds, steps)
    ensures var w := worlds[|steps|];
            && |w.history| == 2 && w.cooldown == cooldown
            && w.history[0].key == w.history[1].key && w.history[1].time == w.history[0].time
            && w.history[1].upto == 1
  {
    var w0 := Initial(0, cooldown);
    steps := [Look(0, "k"), Decide(0, true), Record(0), Sanitize, Look(0, "k"), Decide(0, true), Record(0)];
    var w1 := Next(w0, steps[0]);
    var w2 := Next(w1, steps[1]);
    var w3 := Next(w2, steps[2]);
    var w4 := Next(w3, steps[3]);
    var w5 := Next(w4, steps[4]);
    var w6 := Next(w5, steps[5]);
    var w7 := Next(w6, steps[6]);
    worlds := [w0, w1, w2, w3, w4, w5, w6, w7];
    assert IsRun(worlds, steps);
    assert worlds[|steps|] == w7;
  }

  /** Two workers that both look before either records heal one key twice at one instant, with no sanitizing. */
  lemma ConcurrentChecksDuplicate(cooldown: int) returns (worlds: seq<World>, steps: seq<Step>)
    requires cooldown > 0
    ensures IsRun(worlds, steps) && NeverSanitized(steps)
    ensures var w := worlds[|steps|];
            && |w.history| == 2 && w.cooldown == cooldown
            && w.history[0].key == w.history[1].key && w.history[1].time == w.history[0].time
            && w.history[1].upto == 0
  {
    var w0 := Initial(0, cooldown);
    steps := [Look(0, "k"), Look(1, "k"), Decide(0, true), Decide(1, true), Record(0), Record(1)];
    var w1 := Next(w0, steps[0]);
    var w2 := Next(w1, steps[1]);
    var w3 := Next(w2, steps[2]);
    var w4 := Next(w3, steps[3]);
    var w5 := Next(w4, steps[4]);
    var w6 := Next(w5, steps[5]);
    worlds := [w0, w1, w2, w3, w4, w5, w6];
    assert IsRun(worlds, steps);
    assert worlds[|steps|] == w6;
  }
}
