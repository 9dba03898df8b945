/**
 A pass as a sequence of visits to the listed resources: what visits amount to, and how the turns that
 the goroutines take fit an interleaving.
 */
module CrdVisits {
  import opened Text
  import opened CrdSpec
  import opened CrdListing
  import opened Staleness
  import opened CleanupProtocol
  import opened Cooldown
  import Tracks = CrdTracking

  /**
   What one turn of a goroutine did about one listed resource: the clock at the cooldown check, at the
   age check and at the end, and the attempts made, of which there are none when nothing was to be done.
   */
  datatype Visit = Visit(gvr: Gvr, resource: Resource, checked: int, assessed: int, recorded: int, attempts: seq<seq<Call>>) {
    function Key(): string
    {
      KeyOf(gvr, resource)
    }

    predicate Acted()
    {
      attempts != []
    }
  }

  function HealedBy(heals: map<string, int>, v: Visit): map<string, int>
  {
    if v.Acted() then heals[v.Key() := v.recorded] else heals
  }

  function HealsAfter(heals: map<string, int>, visits: seq<Visit>): map<string, int>
  {
    if visits == [] then heals else HealedBy(HealsAfter(heals, visits[..|visits| - 1]), visits[|visits| - 1])
  }

  function CallsOf(visits: seq<Visit>): seq<Call>
  {
    if visits == [] then [] else CallsOf(visits[..|visits| - 1]) + Flatten(visits[|visits| - 1].attempts)
  }

  function Sessions(visits: seq<Visit>): seq<Visit>
  {
    if visits == [] then []
    else Sessions(visits[..|visits| - 1]) + if visits[|visits| - 1].Acted() then [visits[|visits| - 1]] else []
  }

  lemma Snoc(heals: map<string, int>, visits: seq<Visit>, v: Visit)
    ensures HealsAfter(heals, visits + [v]) == HealedBy(HealsAfter(heals, visits), v)
    ensures CallsOf(visits + [v]) == CallsOf(visits) + Flatten(v.attempts)
    ensures Sessions(visits + [v]) == Sessions(visits) + if v.Acted() then [v] else []
  {
    assert (visits + [v])[..|visits|] == visits;
  }

  lemma CallsSnoc(log: seq<Call>, visits: seq<Visit>, v: Visit)
    ensures log + CallsOf(visits) + Flatten(v.attempts) == log + CallsOf(visits + [v])
  {
    Snoc(map[], visits, v);
  }

  /** The history has grown by the heals of these sessions, in order. */
  ghost predicate Grown(w: World, w': World, sessions: seq<Visit>)
  {
    && |w'.history| == |w.history| + |sessions|
    && (forall i :: 0 <= i < |w.history| ==> w'.history[i] == w.history[i])
    && (forall i :: 0 <= i < |sessions| ==>
          w'.history[|w.history| + i].key == sessions[i].Key() && w'.history[|w.history| + i].time == sessions[i].recorded)
  }

  /** ... and no check of theirs came after a sanitizing. */
  ghost predicate SameEra(w: World, w': World)
  {
    w'.forgotten == w.forgotten && forall i :: |w.history| <= i < |w'.history| ==> w'.history[i].from == w.forgotten
  }

  lemma GrownTwice(w0: World, w1: World, w2: World, a: seq<Visit>, b: seq<Visit>)
    requires Grown(w0, w1, a) && Grown(w1, w2, b)
    ensures Grown(w0, w2, a + b)
    ensures SameEra(w0, w1) && SameEra(w1, w2) ==> SameEra(w0, w2)
  {
    forall i | 0 <= i < |a + b|
      ensures w2.history[|w0.history| + i].key == (a + b)[i].Key() && w2.history[|w0.history| + i].time == (a + b)[i].recorded
    {
      if i < |a| {
        assert w2.history[|w0.history| + i] == w1.history[|w0.history| + i];
      } else {
        assert |w0.history| + i == |w1.history| + (i - |a|);
      }
    }
    forall i | |w0.history| <= i < |w1.history| ensures w2.history[i] == w1.history[i] {}
  }

  lemma {:induction false} CallsConcat(a: seq<Visit>, b: seq<Visit>)
    ensures CallsOf(a + b) == CallsOf(a) + CallsOf(b)
  {
    if b == [] {
      assert a + b == a;
    } else {
      var init, last := b[..|b| - 1], b[|b| - 1];
      CallsConcat(a, init);
      MoveLast(a, b);
      Snoc(map[], a + init, last);
      assert CallsOf(a) + CallsOf(init) + Flatten(last.attempts) == CallsOf(a) + (CallsOf(init) + Flatten(last.attempts));
    }
  }

  lemma {:induction false} SessionsConcat(a: seq<Visit>, b: seq<Visit>)
    ensures Sessions(a + b) == Sessions(a) + Sessions(b)
  {
    if b == [] {
      assert a + b == a;
    } else {
      SessionsConcat(a, b[..|b| - 1]);
      MoveLast(a, b);
      Snoc(map[], a + b[..|b| - 1], b[|b| - 1]);
      var last := if b[|b| - 1].Acted() then [b[|b| - 1]] else [];
      assert Sessions(a) + Sessions(b[..|b| - 1]) + last == Sessions(a) + (Sessions(b[..|b| - 1]) + last);
    }
  }

  lemma MoveLast(a: seq<Visit>, b: seq<Visit>)
    requires b != []
    ensures a + b == a + b[..|b| - 1] + [b[|b| - 1]]
  {
  }

  /** No key was healed twice within the cooldown, unless the map was sanitized between the two. */
  ghost predicate HistorySpaced(w: World)
  {
    forall i, j :: 0 <= i < j < |w.history| && w.history[i].key == w.history[j].key && !SanitizedBetween(w, i, j)
      ==> w.history[j].time - w.history[i].time >= w.cooldown
  }

  ghost predicate SessionsSpaced(sessions: seq<Visit>, cooldown: int)
  {
    forall i, j :: 0 <= i < j < |sessions| && sessions[i].Key() == sessions[j].Key()
      ==> sessions[j].recorded - sessions[i].recorded >= cooldown
  }

  lemma HistoryIsSpaced(t: Trace)
    requires Made(t) && Sequential(Last(t))
    ensures HistorySpaced(Last(t))
  {
    var w := Last(t);
    forall i, j | 0 <= i < j < |w.history| && w.history[i].key == w.history[j].key && !SanitizedBetween(w, i, j)
      ensures w.history[j].time - w.history[i].time >= w.cooldown
    {
      SequentialIsSpaced(t, i, j);
    }
  }

  lemma RunKeepsForgotten(t: Trace)
    requires Made(t)
    ensures Last(t).forgotten <= |Last(t).history|
  {
    RunKeepsInv(t.worlds, t.steps, |t.worlds| - 1);
  }

  /** Sessions between which nothing was sanitized are spaced because their history is. */
  lemma SessionsAreSpaced(w: World, w': World, sessions: seq<Visit>)
    requires HistorySpaced(w') && w.forgotten <= |w.history|
    requires Grown(w, w', sessions) && SameEra(w, w')
    ensures SessionsSpaced(sessions, w'.cooldown)
  {
    forall i, j | 0 <= i < j < |sessions| && sessions[i].Key() == sessions[j].Key()
      ensures sessions[j].recorded - sessions[i].recorded >= w'.cooldown
    {
      var m, n := |w.history| + i, |w.history| + j;
      assert !SanitizedBetween(w', m, n);
    }
  }

  // ---------- A pass, turn by turn ----------

  /** The items handled so far, in order, and how far each goroutine has come in its list. */
  datatype Turns = Turns(done: seq<(nat, nat)>, pos: seq<nat>)

  /** Every goroutine has handled the first `pos[i]` items of its list, each once. */
  ghost predicate InTurn(lists: Lists, t: Turns, visits: seq<Visit>)
  {
    && |t.pos| == |lists| && |t.done| == |visits| && Distinct(t.done)
    && (forall i :: 0 <= i < |lists| ==> t.pos[i] <= |Items(lists[i])|)
    && (forall a: (nat, nat) :: InLists(lists, a) ==> (a in t.done <==> a.1 < t.pos[a.0]))
    && (forall k :: 0 <= k < |visits| ==> InLists(lists, t.done[k]) && visits[k].resource == ItemAt(lists, t.done[k]))
  }

  /** The visits handle every listed item exactly once. */
  ghost predicate HandlesAll(lists: Lists, visits: seq<Visit>)
  {
    exists done: seq<(nat, nat)> :: Handles(lists, done, visits)
  }

  ghost predicate Handles(lists: Lists, done: seq<(nat, nat)>, visits: seq<Visit>)
  {
    && |done| == |visits| && Distinct(done)
    && (forall a: (nat, nat) :: InLists(lists, a) <==> a in done)
    && (forall k :: 0 <= k < |visits| ==> InLists(lists, done[k]) && visits[k].resource == ItemAt(lists, done[k]))
  }

  /** Nothing listed goes without a visit, and nothing else gets one. */
  lemma VisitsAreListed(lists: Lists, visits: seq<Visit>)
    requires HandlesAll(lists, visits)
    ensures forall i, r :: 0 <= i < |lists| && lists[i].Some? && r in lists[i].value ==> exists v :: v in visits && v.resource == r
    ensures forall v :: v in visits ==> exists i :: 0 <= i < |lists| && lists[i].Some? && v.resource in lists[i].value
  {
    var done: seq<(nat, nat)> :| Handles(lists, done, visits);
    forall i, r | 0 <= i < |lists| && lists[i].Some? && r in lists[i].value ensures exists v :: v in visits && v.resource == r {
      var j :| 0 <= j < |lists[i].value| && lists[i].value[j] == r;
      assert InLists(lists, (i, j));
      var k :| 0 <= k < |done| && done[k] == (i, j);
      assert visits[k] in visits && visits[k].resource == r;
    }
    forall v | v in visits ensures exists i :: 0 <= i < |lists| && lists[i].Some? && v.resource in lists[i].value {
      var k :| 0 <= k < |visits| && visits[k] == v;
      assert lists[done[k].0].Some? && v.resource in lists[done[k].0].value;
    }
  }

  lemma NextTurn(lists: Lists, t: Turns, visits: seq<Visit>, item: (nat, nat), v: Visit) returns (t': Turns)
    requires InTurn(lists, t, visits) && InLists(lists, item) && item.1 == t.pos[item.0]
    requires v.resource == ItemAt(lists, item)
    ensures t' == Turns(t.done + [item], t.pos[item.0 := item.1 + 1]) && InTurn(lists, t', visits + [v])
  {
    t' := Turns(t.done + [item], t.pos[item.0 := item.1 + 1]);
    assert item !in t.done;
    forall a: (nat, nat) | InLists(lists, a) ensures a in t'.done <==> a.1 < t'.pos[a.0] {
      assert a in t'.done <==> a in t.done || a == item;
    }
  }

  lemma AllTurnsTaken(lists: Lists, t: Turns, visits: seq<Visit>)
    requires InTurn(lists, t, visits) && forall i :: 0 <= i < |lists| ==> t.pos[i] >= |Items(lists[i])|
    ensures HandlesAll(lists, visits)
  {
    forall a: (nat, nat) ensures InLists(lists, a) <==> a in t.done {}
    assert Handles(lists, t.done, visits);
  }

  function AllItems(lists: Lists): set<(nat, nat)>
  {
    set i: nat, j: nat | i < |lists| && j < |Items(lists[i])| :: (i, j)
  }

  ghost predicate Unhandled(lists: Lists, pos: seq<nat>, todo: set<(nat, nat)>)
  {
    |pos| == |lists| && forall a: (nat, nat) :: InLists(lists, a) && a.1 >= pos[a.0] ==> a in todo
  }

  predicate SomeLeft(lists: Lists, pos: seq<nat>)
    requires |pos| == |lists|
  {
    exists i :: 0 <= i < |lists| && pos[i] < |Items(lists[i])|
  }

  lemma NoneHandled(lists: Lists, pos: seq<nat>)
    requires |pos| == |lists| && forall i :: 0 <= i < |pos| ==> pos[i] == 0
    ensures Unhandled(lists, pos, AllItems(lists))
  {
    forall a: (nat, nat) | InLists(lists, a) ensures a in AllItems(lists) {
      assert a == (a.0, a.1);
    }
  }

  lemma NextUnhandled(lists: Lists, pos: seq<nat>, todo: set<(nat, nat)>, i: nat)
    requires Unhandled(lists, pos, todo) && i < |pos| && InLists(lists, (i, pos[i]))
    ensures (i, pos[i]) in todo
    ensures Unhandled(lists, pos[i := pos[i] + 1], todo - {(i, pos[i])})
  {
  }

  /** What a pass has done so far: its steps, its visits, its turns, and the keys it has seen. */
  datatype Pass = Pass(ops: seq<Tracks.Op>, visits: seq<Visit>, turns: Turns, existing: set<string>)

  /** The keys seen, as those of the only pass. */
  function Seen(existing: set<string>): set<(nat, string)>
  {
    set k | k in existing :: (0, k)
  }

  lemma SeenAre(existing: set<string>, key: string)
    ensures Tracks.SeenBy(Seen(existing), 0) == existing
    ensures Seen(existing + {key}) == Seen(existing) + {(0, key)}
  {
    assert forall k :: k in existing ==> (0, k) in Seen(existing) && (0, k).1 in Tracks.SeenBy(Seen(existing), 0);
  }

  /** These steps of a pass form a schedule that accounts for the tracked keys and for how far its goroutines have come. */
  ghost predicate Follows(ps: Tracks.Passes, ops: seq<Tracks.Op>, pos: seq<nat>, dropped: set<string>,
                          before: set<string>, now: set<string>, existing: set<string>)
  {
    var progress := Tracks.ProgressOf(ops, ps);
    && Tracks.Schedule(ops, ps) && progress.swept == {} && progress.lost == {} && progress.dropped == dropped
    && |progress.at| == |pos| == |ps.listings|
    && (forall i :: 0 <= i < |pos| ==> progress.at[i].begun == progress.at[i].noted == pos[i])
    && Tracks.Run(Tracks.Board(before, {}), ops) == Tracks.Board(now, Seen(existing))
  }

  lemma FollowsOn(ps: Tracks.Passes, ops: seq<Tracks.Op>, pos: seq<nat>, dropped: set<string>,
                  before: set<string>, now: set<string>, existing: set<string>, item: (nat, nat), drops: bool)
    returns (ops': seq<Tracks.Op>)
    requires Follows(ps, ops, pos, dropped, before, now, existing)
    requires Tracks.IsItem(ps, item) && item.1 == pos[item.0] && ps.listings[item.0].pass == 0
    ensures var key := Tracks.KeyAt(ps, item);
            Follows(ps, ops', pos[item.0 := item.1 + 1], if drops then dropped + {key} else dropped,
                    before, if drops then now - {key} else now + {key}, existing + {key})
  {
    ops' := Tracks.ItemStep(Tracks.Board(before, {}), ops, ps, item, drops);
    SeenAre(existing, Tracks.KeyAt(ps, item));
  }

  ghost predicate Traced(gvr: Gvr, lists: Lists, before: set<string>, now: set<string>, p: Pass)
  {
    Follows(PassOf(gvr, lists), p.ops, p.turns.pos, Settled(CallsOf(p.visits)), before, now, p.existing)
  }

  lemma Opening(gvr: Gvr, lists: Lists, pos: seq<nat>, tracked: set<string>) returns (p: Pass)
    requires |pos| == |lists| && forall i :: 0 <= i < |pos| ==> pos[i] == 0
    ensures p == Pass([], [], Turns([], pos), {})
    ensures InTurn(lists, p.turns, p.visits) && Traced(gvr, lists, tracked, tracked, p)
  {
    p := Pass([], [], Turns([], pos), {});
  }

  lemma TracedSnoc(gvr: Gvr, lists: Lists, before: set<string>, now: set<string>, p: Pass, item: (nat, nat), v: Visit)
    returns (p': Pass)
    requires Traced(gvr, lists, before, now, p) && InTurn(lists, p.turns, p.visits)
    requires InLists(lists, item) && item.1 == p.turns.pos[item.0] && v.gvr == gvr && v.resource == ItemAt(lists, item)
    requires Settled(Flatten(v.attempts)) <= {v.Key()}
    ensures p'.visits == p.visits + [v] && p'.existing == p.existing + {v.Key()}
    ensures p'.turns.pos == p.turns.pos[item.0 := item.1 + 1] && InTurn(lists, p'.turns, p'.visits)
    ensures Traced(gvr, lists, before, now + {v.Key()} - Settled(Flatten(v.attempts)), p')
  {
    var settled := Settled(Flatten(v.attempts));
    PassItems(gvr, lists, item);
    var ops := FollowsOn(PassOf(gvr, lists), p.ops, p.turns.pos, Settled(CallsOf(p.visits)),
                         before, now, p.existing, item, v.Key() in settled);
    var turns := NextTurn(lists, p.turns, p.visits, item, v);
    Snoc(map[], p.visits, v);
    SettledConcat(CallsOf(p.visits), Flatten(v.attempts));
    assert settled == if v.Key() in settled then {v.Key()} else {};
    p' := Pass(ops, p.visits + [v], turns, p.existing + {v.Key()});
  }

  /** The final loop completes the schedule of a pass that runs alone. */
  lemma SweepLast(gvr: Gvr, lists: Lists, before: set<string>, now: set<string>, p: Pass) returns (ops: seq<Tracks.Op>)
    requires SlashFree(gvr, lists) && Traced(gvr, lists, before, now, p) && InTurn(lists, p.turns, p.visits)
    requires forall i :: 0 <= i < |lists| ==> p.turns.pos[i] >= |Items(lists[i])|
    ensures Tracks.Finished(ops, PassOf(gvr, lists))
    ensures Tracks.ProgressOf(ops, PassOf(gvr, lists)).dropped == Settled(CallsOf(p.visits))
    ensures Tracks.ProgressOf(ops, PassOf(gvr, lists)).lost == {}
    ensures Tracks.Run(Tracks.Board(before, {}), ops).tracked == Tracks.Swept(now, p.existing, gvr.resource)
  {
    var ps, sweep := PassOf(gvr, lists), Tracks.Sweep(0, gvr.resource);
    SeenAre(p.existing, "");
    assert Tracks.AllPasses(ps) == {0};
    Tracks.Extend(Tracks.Board(before, {}), p.ops, sweep, ps);
    ops := p.ops + [sweep];
  }

  lemma FinishedIsAsListed(gvr: Gvr, lists: Lists, before: set<string>, ops: seq<Tracks.Op>)
    requires SlashFree(gvr, lists) && Tracks.Finished(ops, PassOf(gvr, lists))
    requires Tracks.ProgressOf(ops, PassOf(gvr, lists)).lost == {}
    ensures AsListed(gvr, lists, before, Tracks.ProgressOf(ops, PassOf(gvr, lists)).dropped,
                     Tracks.Run(Tracks.Board(before, {}), ops).tracked)
  {
    var ps := PassOf(gvr, lists);
    PassLists(gvr, lists);
    Tracks.PassesResult(ps, before, ops);
    if Tracks.ListedOnce(ps) {
      Tracks.OnceIsExact(ps, before, ops);
    }
    forall k
      ensures KeyAsListed(gvr, lists, before, Tracks.ProgressOf(ops, ps).dropped, Tracks.Run(Tracks.Board(before, {}), ops).tracked, k)
    {
      assert Tracks.Bounded(ps, before, ops, k);
      assert Tracks.ListedOnce(ps) ==> Tracks.Exact(ps, before, ops, k);
      if Tracks.IsListed(ps, k) {
        Tracks.AloneIsAll(ps, k);
      }
    }
  }

  lemma PassEnds(gvr: Gvr, lists: Lists, before: set<string>, now: set<string>, p: Pass)
    requires SlashFree(gvr, lists) && Traced(gvr, lists, before, now, p) && InTurn(lists, p.turns, p.visits)
    requires forall i :: 0 <= i < |lists| ==> p.turns.pos[i] >= |Items(lists[i])|
    ensures HandlesAll(lists, p.visits)
    ensures AsListed(gvr, lists, before, Settled(CallsOf(p.visits)), Tracks.Swept(now, p.existing, gvr.resource))
  {
    AllTurnsTaken(lists, p.turns, p.visits);
    var ops := SweepLast(gvr, lists, before, now, p);
    FinishedIsAsListed(gvr, lists, before, ops);
  }

  /**
   What a pass leaves tracked: of its own type everything listed and not settled, and nothing that was
   not listed; exactly that when no key was listed twice; and all other keys as they were.
   */
  ghost predicate AsListed(gvr: Gvr, lists: Lists, before: set<string>, settled: set<string>, after: set<string>)
  {
    forall k :: KeyAsListed(gvr, lists, before, settled, after, k)
  }

  ghost predicate KeyAsListed(gvr: Gvr, lists: Lists, before: set<string>, settled: set<string>, after: set<string>, k: string)
  {
    if Tracks.OfResource(k, gvr.resource) then
      && (k in Listed(gvr, lists) && k !in settled ==> k in after)
      && (k in after ==> k in Listed(gvr, lists))
      && (Tracks.ListedOnce(PassOf(gvr, lists)) && k in after ==> k !in settled)
    else
      k in after <==> k in before
  }

  /**
   In terms of the visits and their calls: keys of other types are as they were; of its own type nothing is
   tracked that was not visited, and what was visited is, unless some call about it was answered "not found"
   or deleted it. When no key is listed twice, exactly that is tracked.
   */
  lemma TrackedMeaning(gvr: Gvr, lists: Lists, visits: seq<Visit>, before: set<string>, after: set<string>, k: string)
    requires AsListed(gvr, lists, before, Settled(CallsOf(visits)), after)
    requires HandlesAll(lists, visits) && forall v :: v in visits ==> v.gvr == gvr
    ensures var own := |Split(k, '/')| == 3 && Split(k, '/')[0] == gvr.resource;
            var visited := exists v :: v in visits && v.Key() == k;
            var settled := exists c :: c in CallsOf(visits) && c.key == k && ((c.answer.Error? && c.answer.notFound) || (c.verb.Delete? && c.answer.Fine?));
            && (!own ==> (k in after <==> k in before))
            && (own && k in after ==> visited)
            && (own && visited && !settled ==> k in after)
            && (own && Tracks.ListedOnce(PassOf(gvr, lists)) ==> (k in after <==> visited && !settled))
  {
    SettledMeaning(CallsOf(visits), k);
    ListedIsVisited(gvr, lists, visits, k);
    ListedOrNot(gvr, lists, before, Settled(CallsOf(visits)), after, k);
  }

  lemma ListedOrNot(gvr: Gvr, lists: Lists, before: set<string>, settled: set<string>, after: set<string>, k: string)
    requires AsListed(gvr, lists, before, settled, after)
    ensures var own := |Split(k, '/')| == 3 && Split(k, '/')[0] == gvr.resource;
            && (!own ==> (k in after <==> k in before))
            && (own && k in after ==> k in Listed(gvr, lists))
            && (own && k in Listed(gvr, lists) && k !in settled ==> k in after)
            && (own && Tracks.ListedOnce(PassOf(gvr, lists)) && k in after ==> k !in settled)
  {
    assert KeyAsListed(gvr, lists, before, settled, after, k);
  }

  lemma ListedIsVisited(gvr: Gvr, lists: Lists, visits: seq<Visit>, k: string)
    requires HandlesAll(lists, visits) && forall v :: v in visits ==> v.gvr == gvr
    ensures k in Listed(gvr, lists) <==> exists v :: v in visits && v.Key() == k
  {
    VisitsAreListed(lists, visits);
    if k in Listed(gvr, lists) {
      var i, j :| 0 <= i < |lists| && 0 <= j < |Items(lists[i])| && KeyOf(gvr, Items(lists[i])[j]) == k;
      var r := Items(lists[i])[j];
      assert r in lists[i].value;
      var v :| v in visits && v.resource == r;
      assert v.Key() == k;
    }
    if v :| v in visits && v.Key() == k {
      var i :| 0 <= i < |lists| && lists[i].Some? && v.resource in lists[i].value;
      var j :| 0 <= j < |lists[i].value| && lists[i].value[j] == v.resource;
      assert KeyOf(gvr, Items(lists[i])[j]) == k;
    }
  }
}
