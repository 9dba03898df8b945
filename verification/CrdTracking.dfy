/**
 Passes over custom resource types, one or many at a time: per-namespace goroutines mark, track and
 clean up what they list, then the keys of the type that nobody listed are forgotten. Also, the
 cleanup counters.
 */
module CrdTracking {
  import opened Text

  // ---------- Keys ----------

  /** `resource/namespace/name`; the API group is not part of it. */
  function Key(resource: string, namespace: string, name: string): string
  {
    Join([resource, namespace, name], '/')
  }

  /** How the final loop recognizes the keys of a type. */
  predicate OfResource(key: string, resource: string)
  {
    var parts := Split(key, '/');
    |parts| == 3 && parts[0] == resource
  }

  /** Printed and split keys agree, for names without a slash. */
  lemma KeyRoundTrip(resource: string, namespace: string, name: string)
    requires '/' !in resource && '/' !in namespace && '/' !in name
    ensures Split(Key(resource, namespace, name), '/') == [resource, namespace, name]
    ensures forall r :: OfResource(Key(resource, namespace, name), r) <==> r == resource
  {
    SplitJoin([resource, namespace, name], '/');
  }

  lemma KeyText(resource: string, namespace: string, name: string)
    ensures Key(resource, namespace, name) == resource + "/" + namespace + "/" + name
  {
    assert [resource, namespace, name][1..] == [namespace, name] && [namespace, name][1..] == [name];
    assert Join([namespace, name], '/') == namespace + ['/'] + name;
    assert resource + ['/'] + (namespace + ['/'] + name) == resource + "/" + namespace + "/" + name;
  }

  lemma KeyIsInjective(r1: string, ns1: string, n1: string, r2: string, ns2: string, n2: string)
    requires '/' !in r1 && '/' !in ns1 && '/' !in n1 && '/' !in r2 && '/' !in ns2 && '/' !in n2
    requires Key(r1, ns1, n1) == Key(r2, ns2, n2)
    ensures r1 == r2 && ns1 == ns2 && n1 == n2
  {
    KeyRoundTrip(r1, ns1, n1);
    KeyRoundTrip(r2, ns2, n2);
    var a, b := [r1, ns1, n1], [r2, ns2, n2];
    assert a == b;
    assert a[0] == b[0] && a[1] == b[1] && a[2] == b[2];
  }

  // ---------- Passes as interleaved steps ----------

  /** The tracked keys, and the keys each running pass has seen listed. */
  datatype Board = Board(tracked: set<string>, existing: set<(nat, string)>)

  /** One goroutine: the pass it belongs to, and the keys its List answered, in order. */
  datatype Listing = Listing(pass: nat, keys: seq<string>)

  /**
   Passes that run at the same time, by the resource name of the type each is over, and the goroutines
   of all of them. Two types of one name, or two passes over one type, have keys in common. A key may
   also be listed more than once by one pass: the all-namespaces entry lists what the others list too.
   */
  datatype Passes = Passes(resources: seq<string>, listings: seq<Listing>)

  predicate IsPass(ps: Passes, p: nat)
  {
    p < |ps.resources|
  }

  function AllPasses(ps: Passes): set<nat>
  {
    set p: nat | p < |ps.resources| && IsPass(ps, p)
  }

  /** A goroutine and a position in its list. */
  predicate IsItem(ps: Passes, a: (nat, nat))
  {
    a.0 < |ps.listings| && a.1 < |ps.listings[a.0].keys|
  }

  function KeyAt(ps: Passes, a: (nat, nat)): string
    requires IsItem(ps, a)
  {
    ps.listings[a.0].keys[a.1]
  }

  predicate OwnKeys(ps: Passes)
  {
    forall g :: 0 <= g < |ps.listings| ==>
      var l := ps.listings[g];
      l.pass < |ps.resources| && forall k :: k in l.keys ==> OfResource(k, ps.resources[l.pass])
  }

  /**
   The locked steps of goroutine `g`, and the loop that ends a pass. `Track` changes nothing when the
   key is tracked already; the source tests and sets under two locks, which amounts to a `Track` at the
   test or at the set. The cleaner's trim and the memory guard may lose keys at any time.
   */
  datatype Op =
    | See(g: nat, pass: nat, key: string)
    | Track(g: nat, key: string)
    | Drop(g: nat, key: string)
    | Sweep(pass: nat, resource: string)
    | Lose(keys: set<string>)

  /** The loop after the goroutines: forget the keys of this type that were not listed. */
  function Swept(tracked: set<string>, existing: set<string>, resource: string): set<string>
  {
    set k | k in tracked && (OfResource(k, resource) ==> k in existing)
  }

  function SeenBy(existing: set<(nat, string)>, pass: nat): set<string>
  {
    set x | x in existing && x.0 == pass :: x.1
  }

  function Step(b: Board, op: Op): Board
  {
    match op
    case See(_, p, k) => b.(existing := b.existing + {(p, k)})
    case Track(_, k) => b.(tracked := b.tracked + {k})
    case Drop(_, k) => b.(tracked := b.tracked - {k})
    case Sweep(p, r) => b.(tracked := Swept(b.tracked, SeenBy(b.existing, p), r))
    case Lose(ks) => b.(tracked := b.tracked - ks)
  }

  function Run(b: Board, ops: seq<Op>): Board
  {
    if ops == [] then b else Step(Run(b, ops[..|ops| - 1]), ops[|ops| - 1])
  }

  /** How many items a goroutine has begun and has noted as tracked, and whether it may still drop the last one. */
  datatype Place = Place(begun: nat, noted: nat, open: bool)

  datatype Progress = Progress(at: seq<Place>, noted: set<string>, dropped: set<string>, lost: set<string>, swept: set<nat>)

  function Moved(at: seq<Place>, g: nat, place: Place -> Place): seq<Place>
  {
    if g < |at| then at[g := place(at[g])] else at
  }

  function Advance(p: Progress, op: Op): Progress
  {
    match op
    case See(g, _, _) => p.(at := Moved(p.at, g, (x: Place) => Place(x.begun + 1, x.noted, false)))
    case Track(g, k) => p.(at := Moved(p.at, g, (x: Place) => Place(x.begun, x.noted + 1, true)), noted := p.noted + {k})
    case Drop(g, k) => p.(at := Moved(p.at, g, (x: Place) => x.(open := false)), dropped := p.dropped + {k})
    case Sweep(pass, _) => p.(swept := p.swept + {pass})
    case Lose(ks) => p.(lost := p.lost + ks)
  }

  function ProgressOf(ops: seq<Op>, ps: Passes): Progress
  {
    if ops == [] then Progress(seq(|ps.listings|, _ => Place(0, 0, false)), {}, {}, {}, {})
    else Advance(ProgressOf(ops[..|ops| - 1], ps), ops[|ops| - 1])
  }

  /**
   Each goroutine takes its items in order: it sees one, tracks it, and may then drop it. A pass sweeps
   once, when all its goroutines are done.
   */
  predicate Allowed(p: Progress, op: Op, ps: Passes)
    requires |p.at| == |ps.listings|
  {
    if op.Sweep? then
      && op.pass < |ps.resources| && op.pass !in p.swept && op.resource == ps.resources[op.pass]
      && forall g :: 0 <= g < |p.at| && ps.listings[g].pass == op.pass ==> p.at[g].noted == |ps.listings[g].keys|
    else if op.Lose? then
      true
    else
      op.g < |p.at| &&
      var at, l := p.at[op.g], ps.listings[op.g];
      match op
      case See(_, pass, k) => at.begun == at.noted < |l.keys| && k == l.keys[at.noted] && pass == l.pass
      case Track(_, k) => at.begun == at.noted + 1 <= |l.keys| && k == l.keys[at.noted]
      case Drop(_, k) => at.open && 0 < at.noted <= |l.keys| && k == l.keys[at.noted - 1] && l.pass !in p.swept
  }

  lemma {:induction false} OnePlaceEach(ops: seq<Op>, ps: Passes)
    ensures |ProgressOf(ops, ps).at| == |ps.listings|
  {
    if ops != [] {
      OnePlaceEach(ops[..|ops| - 1], ps);
    }
  }

  /** Any interleaving of the goroutines, stopped at any point. */
  predicate Schedule(ops: seq<Op>, ps: Passes)
  {
    ops == [] ||
    (var init := ops[..|ops| - 1];
     Schedule(init, ps) && (OnePlaceEach(init, ps); Allowed(ProgressOf(init, ps), ops[|ops| - 1], ps)))
  }

  lemma Extend(b: Board, ops: seq<Op>, op: Op, ps: Passes)
    requires Schedule(ops, ps) && |ProgressOf(ops, ps).at| == |ps.listings| && Allowed(ProgressOf(ops, ps), op, ps)
    ensures Schedule(ops + [op], ps)
    ensures Run(b, ops + [op]) == Step(Run(b, ops), op)
    ensures ProgressOf(ops + [op], ps) == Advance(ProgressOf(ops, ps), op)
  {
    assert (ops + [op])[..|ops|] == ops;
  }

  /** A goroutine's whole turn on its next item: see it, track it, and perhaps drop it. */
  lemma ItemStep(b: Board, ops: seq<Op>, ps: Passes, item: (nat, nat), drops: bool) returns (ops': seq<Op>)
    requires Schedule(ops, ps) && |ProgressOf(ops, ps).at| == |ps.listings| && IsItem(ps, item)
    requires var p := ProgressOf(ops, ps); p.at[item.0].begun == p.at[item.0].noted == item.1 && p.swept == {}
    ensures Schedule(ops', ps)
    ensures var p, key := ProgressOf(ops, ps), KeyAt(ps, item);
            ProgressOf(ops', ps) == p.(at := p.at[item.0 := Place(item.1 + 1, item.1 + 1, !drops)], noted := p.noted + {key},
                                       dropped := if drops then p.dropped + {key} else p.dropped)
    ensures var before, key := Run(b, ops), KeyAt(ps, item);
            Run(b, ops') == Board(if drops then before.tracked - {key} else before.tracked + {key},
                                  before.existing + {(ps.listings[item.0].pass, key)})
  {
    var (g, key) := (item.0, KeyAt(ps, item));
    ops' := SeeAndTrack(b, ops, ps, item);
    if drops {
      Extend(b, ops', Drop(g, key), ps);
      ops' := ops' + [Drop(g, key)];
    }
  }

  lemma SeeAndTrack(b: Board, ops: seq<Op>, ps: Passes, item: (nat, nat)) returns (ops': seq<Op>)
    requires Schedule(ops, ps) && |ProgressOf(ops, ps).at| == |ps.listings| && IsItem(ps, item)
    requires var p := ProgressOf(ops, ps); p.at[item.0].begun == p.at[item.0].noted == item.1 && p.swept == {}
    ensures Schedule(ops', ps)
    ensures var p := ProgressOf(ops, ps);
            ProgressOf(ops', ps) == p.(at := p.at[item.0 := Place(item.1 + 1, item.1 + 1, true)], noted := p.noted + {KeyAt(ps, item)})
    ensures var before, key := Run(b, ops), KeyAt(ps, item);
            Run(b, ops') == Board(before.tracked + {key}, before.existing + {(ps.listings[item.0].pass, key)})
  {
    var (g, key) := (item.0, KeyAt(ps, item));
    var pass := ps.listings[g].pass;
    Extend(b, ops, See(g, pass, key), ps);
    ops' := ops + [See(g, pass, key)];
    assert ProgressOf(ops', ps).at[g] == Place(item.1 + 1, item.1, false);
    Extend(b, ops', Track(g, key), ps);
    ops' := ops' + [Track(g, key)];
  }

  predicate IsListed(ps: Passes, key: string)
  {
    exists g :: 0 <= g < |ps.listings| && key in ps.listings[g].keys
  }

  predicate ListedBy(ps: Passes, pass: nat, key: string)
  {
    exists g :: 0 <= g < |ps.listings| && ps.listings[g].pass == pass && key in ps.listings[g].keys
  }

  /** One of these passes is over the type name of the key. */
  predicate IsSwept(ps: Passes, swept: set<nat>, key: string)
  {
    exists p :: p in swept && p < |ps.resources| && OfResource(key, ps.resources[p])
  }

  /** Those of these passes that are over the type name of the key all list it. */
  predicate ListedByAll(ps: Passes, swept: set<nat>, key: string)
  {
    forall p :: p in swept && p < |ps.resources| && OfResource(key, ps.resources[p]) ==> ListedBy(ps, p, key)
  }

  // ---------- What every interleaving keeps ----------

  /** What the goroutines have done to the board, given what each of them has done. */
  ghost predicate Sound(ps: Passes, p: Progress, tracked: set<string>, b: Board)
  {
    Accounted(ps, p, b.existing) && forall k :: Between(ps, p, tracked, b.tracked, k)
  }

  ghost predicate Accounted(ps: Passes, p: Progress, existing: set<(nat, string)>)
  {
    && |p.at| == |ps.listings| && Steady(ps, p)
    && (forall g, i :: 0 <= g < |p.at| && 0 <= i < p.at[g].begun ==> (ps.listings[g].pass, ps.listings[g].keys[i]) in existing)
    && (forall g, i :: 0 <= g < |p.at| && 0 <= i < p.at[g].noted ==> ps.listings[g].keys[i] in p.noted)
    && (forall x :: x in existing ==> ListedBy(ps, x.0, x.1))
    && (forall k :: k in p.noted ==> IsListed(ps, k)) && p.dropped <= p.noted
  }

  ghost predicate Steady(ps: Passes, p: Progress)
    requires |p.at| == |ps.listings|
  {
    && (forall g :: 0 <= g < |p.at| ==> p.at[g].noted <= p.at[g].begun <= |ps.listings[g].keys|)
    && p.swept <= AllPasses(ps)
    && (forall g :: 0 <= g < |p.at| && ps.listings[g].pass in p.swept ==> p.at[g].noted == |ps.listings[g].keys|)
  }

  /**
   The bounds on one key: it is tracked if it was there or noted, never dropped or lost, and listed by
   every pass of its name that has swept; and if it is tracked, then it was there or noted, or listed once such a
   pass has swept.
   */
  predicate Between(ps: Passes, p: Progress, tracked: set<string>, now: set<string>, key: string)
  {
    && ((key in tracked || key in p.noted) && key !in p.dropped && key !in p.lost && ListedByAll(ps, p.swept, key) ==> key in now)
    && (key in now ==> if IsSwept(ps, p.swept, key) then IsListed(ps, key) else key in tracked || key in p.noted)
  }

  lemma {:induction false} ScheduleIsSound(ps: Passes, tracked: set<string>, ops: seq<Op>)
    requires Schedule(ops, ps) && OwnKeys(ps)
    ensures Sound(ps, ProgressOf(ops, ps), tracked, Run(Board(tracked, {}), ops))
  {
    if ops != [] {
      var init := ops[..|ops| - 1];
      ScheduleIsSound(ps, tracked, init);
      StepIsSound(ps, ProgressOf(init, ps), tracked, Run(Board(tracked, {}), init), ops[|ops| - 1]);
    }
  }

  lemma StepIsSound(ps: Passes, p: Progress, tracked: set<string>, b: Board, op: Op)
    requires OwnKeys(ps) && Sound(ps, p, tracked, b) && Allowed(p, op, ps)
    ensures Sound(ps, Advance(p, op), tracked, Step(b, op))
  {
    StepIsAccounted(ps, p, b, op);
    if op.Sweep? {
      SweepIsBetween(ps, p, tracked, b, op.pass, op.resource);
    } else if op.Lose? {
      forall k ensures Between(ps, Advance(p, op), tracked, Step(b, op).tracked, k) {
        assert Between(ps, p, tracked, b.tracked, k);
      }
    } else {
      assert op.key in ps.listings[op.g].keys;
      ItemIsBetween(ps, p, tracked, b, op);
    }
  }

  lemma StepIsAccounted(ps: Passes, p: Progress, b: Board, op: Op)
    requires Accounted(ps, p, b.existing) && Allowed(p, op, ps)
    ensures Accounted(ps, Advance(p, op), Step(b, op).existing)
  {
    match op
    case See(g, _, k) => SeeIsAccounted(ps, p, b.existing, g, k);
    case Track(g, k) => TrackIsAccounted(ps, p, b.existing, g, k);
    case Drop(g, k) => assert k == ps.listings[g].keys[p.at[g].noted - 1];
    case Sweep(_, _) =>
    case Lose(_) =>
  }

  lemma SeeIsAccounted(ps: Passes, p: Progress, existing: set<(nat, string)>, g: nat, key: string)
    requires Accounted(ps, p, existing) && g < |ps.listings| && Allowed(p, See(g, ps.listings[g].pass, key), ps)
    ensures Accounted(ps, Advance(p, See(g, ps.listings[g].pass, key)), existing + {(ps.listings[g].pass, key)})
  {
    assert key in ps.listings[g].keys;
    assert ListedBy(ps, ps.listings[g].pass, key);
  }

  lemma TrackIsAccounted(ps: Passes, p: Progress, existing: set<(nat, string)>, g: nat, key: string)
    requires Accounted(ps, p, existing) && Allowed(p, Track(g, key), ps)
    ensures Accounted(ps, Advance(p, Track(g, key)), existing)
  {
    assert key == ps.listings[g].keys[p.at[g].noted];
  }

  lemma ItemIsBetween(ps: Passes, p: Progress, tracked: set<string>, b: Board, op: Op)
    requires |p.at| == |ps.listings| && Allowed(p, op, ps) && !op.Sweep? && !op.Lose? && IsListed(ps, op.key)
    requires forall k :: Between(ps, p, tracked, b.tracked, k)
    ensures forall k :: Between(ps, Advance(p, op), tracked, Step(b, op).tracked, k)
  {
    forall k ensures Between(ps, Advance(p, op), tracked, Step(b, op).tracked, k) {
      assert Between(ps, p, tracked, b.tracked, k);
    }
  }

  /** A goroutine that is done has seen and noted every key it lists. */
  lemma DoneHasNoted(ps: Passes, p: Progress, existing: set<(nat, string)>, g: nat, key: string)
    requires Accounted(ps, p, existing) && g < |p.at| && key in ps.listings[g].keys && p.at[g].noted == |ps.listings[g].keys|
    ensures (ps.listings[g].pass, key) in existing && key in p.noted
  {
    var i :| 0 <= i < |ps.listings[g].keys| && ps.listings[g].keys[i] == key;
    assert i < p.at[g].noted;
  }

  lemma SweepIsBetween(ps: Passes, p: Progress, tracked: set<string>, b: Board, pass: nat, r: string)
    requires Sound(ps, p, tracked, b) && Allowed(p, Sweep(pass, r), ps)
    ensures forall k :: Between(ps, Advance(p, Sweep(pass, r)), tracked, Step(b, Sweep(pass, r)).tracked, k)
  {
    var b', p' := Step(b, Sweep(pass, r)), Advance(p, Sweep(pass, r));
    forall k ensures Between(ps, p', tracked, b'.tracked, k) {
      assert Between(ps, p, tracked, b.tracked, k);
      SweptKey(ps, p, b.existing, pass, k);
    }
  }

  /** The passes that have swept, with one more that is done with its goroutines. */
  lemma SweptKey(ps: Passes, p: Progress, existing: set<(nat, string)>, pass: nat, key: string)
    requires Accounted(ps, p, existing) && Allowed(p, Sweep(pass, if pass < |ps.resources| then ps.resources[pass] else ""), ps)
    ensures pass < |ps.resources|
    ensures key in SeenBy(existing, pass) <==> ListedBy(ps, pass, key)
    ensures ListedByAll(ps, p.swept + {pass}, key) <==>
            ListedByAll(ps, p.swept, key) && (OfResource(key, ps.resources[pass]) ==> ListedBy(ps, pass, key))
    ensures IsSwept(ps, p.swept + {pass}, key) <==> IsSwept(ps, p.swept, key) || OfResource(key, ps.resources[pass])
    ensures ListedBy(ps, pass, key) ==> IsListed(ps, key)
  {
    if g :| 0 <= g < |ps.listings| && ps.listings[g].pass == pass && key in ps.listings[g].keys {
      DoneHasNoted(ps, p, existing, g, key);
    }
    assert pass in p.swept + {pass};
  }

  /** Every pass has swept. */
  predicate Finished(ops: seq<Op>, ps: Passes)
  {
    Schedule(ops, ps) && ProgressOf(ops, ps).swept == AllPasses(ps)
  }

  /**
   After any number of concurrent passes, over types of any names, under every interleaving: of the
   passes' type names, a key is tracked if it was listed by every pass of its name and never dropped or
   lost, and only if it was listed at all; every other key is as it was unless it was lost.
   */
  lemma PassesResult(ps: Passes, tracked: set<string>, ops: seq<Op>)
    requires Finished(ops, ps) && OwnKeys(ps)
    ensures forall k :: Bounded(ps, tracked, ops, k)
  {
    ScheduleIsSound(ps, tracked, ops);
    var p, b := ProgressOf(ops, ps), Run(Board(tracked, {}), ops);
    forall k ensures Bounded(ps, tracked, ops, k) {
      assert Between(ps, p, tracked, b.tracked, k);
      if IsListed(ps, k) {
        ListedIsSwept(ps, k);
        var g :| 0 <= g < |ps.listings| && k in ps.listings[g].keys;
        DoneHasNoted(ps, p, b.existing, g, k);
      }
    }
  }

  predicate Bounded(ps: Passes, tracked: set<string>, ops: seq<Op>, key: string)
  {
    var after, p := Run(Board(tracked, {}), ops).tracked, ProgressOf(ops, ps);
    if IsSwept(ps, AllPasses(ps), key) then
      && (IsListed(ps, key) && ListedByAll(ps, AllPasses(ps), key) && key !in p.dropped && key !in p.lost ==> key in after)
      && (key in after ==> IsListed(ps, key))
    else
      (key in tracked && key !in p.lost ==> key in after) && (key in after ==> key in tracked)
  }

  lemma ListedIsSwept(ps: Passes, key: string)
    requires OwnKeys(ps) && IsListed(ps, key)
    ensures IsSwept(ps, AllPasses(ps), key)
  {
    var g :| 0 <= g < |ps.listings| && key in ps.listings[g].keys;
    assert ps.listings[g].pass in AllPasses(ps) && OfResource(key, ps.resources[ps.listings[g].pass]);
  }

  /**
   Because the key omits the group, a pass over one group's type forgets the keys of another group's
   type of the same name, and a namespace whose listing failed loses its keys: neither is listed.
   */
  lemma UnlistedIsForgotten(ps: Passes, tracked: set<string>, ops: seq<Op>, pass: nat, namespace: string, name: string)
    requires Finished(ops, ps) && OwnKeys(ps) && pass < |ps.resources|
    requires '/' !in ps.resources[pass] && '/' !in namespace && '/' !in name
    requires !IsListed(ps, Key(ps.resources[pass], namespace, name))
    ensures Key(ps.resources[pass], namespace, name) !in Run(Board(tracked, {}), ops).tracked
  {
    var key := Key(ps.resources[pass], namespace, name);
    KeyRoundTrip(ps.resources[pass], namespace, name);
    PassesResult(ps, tracked, ops);
    assert Bounded(ps, tracked, ops, key);
    assert pass in AllPasses(ps);
  }

  // ---------- When the result is exact ----------

  /** No key is listed twice, by two goroutines or by one. */
  ghost predicate ListedOnce(ps: Passes)
  {
    forall a: (nat, nat), b: (nat, nat) :: IsItem(ps, a) && IsItem(ps, b) && KeyAt(ps, a) == KeyAt(ps, b) ==> a == b
  }

  /** A pass that lists anything is the only one of its type name. */
  predicate Alone(ps: Passes)
    requires OwnKeys(ps)
  {
    forall g, p :: 0 <= g < |ps.listings| && 0 <= p < |ps.resources| ==>
      ps.listings[g].keys != [] && ps.resources[p] == ps.resources[ps.listings[g].pass] ==> p == ps.listings[g].pass
  }

  /** Of the passes' type names, the key is tracked exactly when listed and not dropped, unless it was lost. */
  predicate Exact(ps: Passes, tracked: set<string>, ops: seq<Op>, key: string)
  {
    var after, p := Run(Board(tracked, {}), ops).tracked, ProgressOf(ops, ps);
    var due := if IsSwept(ps, AllPasses(ps), key) then IsListed(ps, key) && key !in p.dropped else key in tracked;
    (due && key !in p.lost ==> key in after) && (key in after ==> due)
  }

  /** A dropped key stays dropped: whoever lists it has tracked it before. */
  ghost predicate Settling(ps: Passes, p: Progress, b: Board)
    requires |p.at| == |ps.listings|
  {
    && p.dropped !! b.tracked
    && (forall a: (nat, nat) :: IsItem(ps, a) && KeyAt(ps, a) in p.dropped ==> a.1 < p.at[a.0].noted)
  }

  lemma {:induction false} OnceIsSettling(ps: Passes, tracked: set<string>, ops: seq<Op>)
    requires Schedule(ops, ps) && OwnKeys(ps) && ListedOnce(ps)
    ensures |ProgressOf(ops, ps).at| == |ps.listings|
    ensures Settling(ps, ProgressOf(ops, ps), Run(Board(tracked, {}), ops))
  {
    OnePlaceEach(ops, ps);
    if ops != [] {
      var init := ops[..|ops| - 1];
      OnceIsSettling(ps, tracked, init);
      var p, op := ProgressOf(init, ps), ops[|ops| - 1];
      if op.Drop? {
        var item := (op.g, p.at[op.g].noted - 1);
        assert IsItem(ps, item) && KeyAt(ps, item) == op.key;
      } else if op.Track? {
        var item := (op.g, p.at[op.g].noted);
        assert IsItem(ps, item) && KeyAt(ps, item) == op.key;
      }
    }
  }

  /** What a pass that is alone lists, all passes of that name list. */
  lemma AloneIsAll(ps: Passes, key: string)
    requires OwnKeys(ps) && Alone(ps) && IsListed(ps, key)
    ensures ListedByAll(ps, AllPasses(ps), key)
  {
    var g :| 0 <= g < |ps.listings| && key in ps.listings[g].keys;
    forall p | p in AllPasses(ps) && OfResource(key, ps.resources[p]) ensures ListedBy(ps, p, key) {
      assert OfResource(key, ps.resources[ps.listings[g].pass]);
      assert p == ps.listings[g].pass;
    }
  }

  lemma OnceIsExact(ps: Passes, tracked: set<string>, ops: seq<Op>)
    requires Finished(ops, ps) && OwnKeys(ps) && ListedOnce(ps) && Alone(ps)
    ensures forall k :: Exact(ps, tracked, ops, k)
  {
    PassesResult(ps, tracked, ops);
    OnceIsSettling(ps, tracked, ops);
    forall k ensures Exact(ps, tracked, ops, k) {
      assert Bounded(ps, tracked, ops, k);
      if IsListed(ps, k) {
        AloneIsAll(ps, k);
      }
    }
  }

  /** Under every interleaving, exactly the listed keys are tracked less those some goroutine dropped, and less some that were lost. */
  ghost predicate AlwaysExact(ps: Passes)
  {
    forall tracked: set<string>, ops: seq<Op>, key: string :: Finished(ops, ps) ==> Exact(ps, tracked, ops, key)
  }

  /**
   The result is exact under every interleaving if and only if no key is listed twice and no pass that
   lists anything runs beside another of its type name. Otherwise one goroutine may drop a key and
   another, which listed it too, track it again, so that the key of a resource that is gone survives; or
   one pass may forget what another lists.
   */
  lemma ExactIff(ps: Passes)
    requires OwnKeys(ps)
    ensures AlwaysExact(ps) <==> ListedOnce(ps) && Alone(ps)
  {
    if ListedOnce(ps) && Alone(ps) {
      forall tracked: set<string>, ops: seq<Op>, key: string | Finished(ops, ps) ensures Exact(ps, tracked, ops, key) {
        OnceIsExact(ps, tracked, ops);
      }
    } else if key :| IsListed(ps, key) && !ListedByAll(ps, AllPasses(ps), key) {
      var item := Whereabouts(ps, key);
      var ops := DropThenSweep(ps, (|ps.listings|, 0), key);
      ListedIsSwept(ps, key);
      assert !Exact(ps, {}, ops, key);
    } else {
      if ListedOnce(ps) {
        OnceByAllIsAlone(ps);
      }
      var drop, again := FirstOfTwo(ps);
      var ops := DropThenSweep(ps, drop, KeyAt(ps, drop));
      ItemIsListed(ps, drop);
      ListedIsSwept(ps, KeyAt(ps, drop));
      assert !Exact(ps, {}, ops, KeyAt(ps, drop));
    }
  }

  lemma Whereabouts(ps: Passes, key: string) returns (item: (nat, nat))
    requires IsListed(ps, key)
    ensures IsItem(ps, item) && KeyAt(ps, item) == key
  {
    var g: nat :| g < |ps.listings| && key in ps.listings[g].keys;
    var i: nat :| i < |ps.listings[g].keys| && ps.listings[g].keys[i] == key;
    item := (g, i);
  }

  lemma ItemIsListed(ps: Passes, item: (nat, nat))
    requires IsItem(ps, item)
    ensures IsListed(ps, KeyAt(ps, item)) && ListedBy(ps, ps.listings[item.0].pass, KeyAt(ps, item))
  {
    assert KeyAt(ps, item) in ps.listings[item.0].keys;
  }

  lemma OnceByAllIsAlone(ps: Passes)
    requires OwnKeys(ps) && ListedOnce(ps) && forall k :: IsListed(ps, k) ==> ListedByAll(ps, AllPasses(ps), k)
    ensures Alone(ps)
  {
    forall g, p | 0 <= g < |ps.listings| && ps.listings[g].keys != [] && 0 <= p < |ps.resources|
                  && ps.resources[p] == ps.resources[ps.listings[g].pass]
      ensures p == ps.listings[g].pass
    {
      var key := ps.listings[g].keys[0];
      assert key in ps.listings[g].keys && IsPass(ps, p);
      assert IsListed(ps, key) && OfResource(key, ps.resources[p]);
      assert ListedBy(ps, p, key);
      var h :| 0 <= h < |ps.listings| && ps.listings[h].pass == p && key in ps.listings[h].keys;
      var j :| 0 <= j < |ps.listings[h].keys| && ps.listings[h].keys[j] == key;
      assert IsItem(ps, (g, 0)) && IsItem(ps, (h, j)) && KeyAt(ps, (g, 0)) == KeyAt(ps, (h, j));
    }
  }

  // ---------- The interleavings that fail ----------

  predicate Before(a: (nat, nat), b: (nat, nat))
  {
    a.0 < b.0 || (a.0 == b.0 && a.1 < b.1)
  }

  lemma FirstOfTwo(ps: Passes) returns (a: (nat, nat), b: (nat, nat))
    requires !ListedOnce(ps)
    ensures IsItem(ps, a) && IsItem(ps, b) && Before(a, b) && KeyAt(ps, a) == KeyAt(ps, b)
  {
    a, b :| IsItem(ps, a) && IsItem(ps, b) && KeyAt(ps, a) == KeyAt(ps, b) && a != b;
    if Before(b, a) {
      a, b := b, a;
    }
  }

  /** The goroutines run one after the other and have come to item `next`; only `drop` has been dropped, if it is an item. */
  ghost predicate Walked(ps: Passes, ops: seq<Op>, next: (nat, nat), drop: (nat, nat))
  {
    && Schedule(ops, ps) && HasCome(ps, ProgressOf(ops, ps), next)
    && ProgressOf(ops, ps).dropped == (if IsItem(ps, drop) && Before(drop, next) then {KeyAt(ps, drop)} else {})
    && forall a: (nat, nat) :: IsItem(ps, a) && Before(a, next) && Stays(ps, a, drop) ==> KeyAt(ps, a) in Run(Board({}, {}), ops).tracked
  }

  predicate Stays(ps: Passes, a: (nat, nat), drop: (nat, nat))
    requires IsItem(ps, a)
  {
    IsItem(ps, drop) ==> Before(drop, a) || KeyAt(ps, a) != KeyAt(ps, drop)
  }

  ghost predicate HasCome(ps: Passes, p: Progress, next: (nat, nat))
  {
    && |p.at| == |ps.listings| && p.swept == {} && p.lost == {}
    && (forall g :: 0 <= g < |p.at| ==> p.at[g].begun == p.at[g].noted)
    && (forall g :: 0 <= g < |p.at| && g < next.0 ==> p.at[g].noted == |ps.listings[g].keys|)
    && (next.0 < |p.at| ==> p.at[next.0].noted == next.1)
    && (forall g :: 0 <= g < |p.at| && next.0 < g ==> p.at[g].noted == 0)
  }

  lemma WalkItem(ps: Passes, ops: seq<Op>, next: (nat, nat), drop: (nat, nat)) returns (ops': seq<Op>)
    requires IsItem(ps, next) && Walked(ps, ops, next, drop)
    ensures Walked(ps, ops', (next.0, next.1 + 1), drop)
  {
    ops' := ItemStep(Board({}, {}), ops, ps, next, next == drop);
    ComesOn(ps, ProgressOf(ops, ps), ProgressOf(ops', ps), next, next != drop);
    StillTracked(ps, Run(Board({}, {}), ops).tracked, Run(Board({}, {}), ops').tracked, next, drop);
  }

  lemma ComesOn(ps: Passes, p: Progress, p': Progress, next: (nat, nat), open: bool)
    requires HasCome(ps, p, next) && IsItem(ps, next) && p'.swept == {} && p'.lost == {}
    requires p'.at == p.at[next.0 := Place(next.1 + 1, next.1 + 1, open)]
    ensures HasCome(ps, p', (next.0, next.1 + 1))
  {
  }

  lemma StillTracked(ps: Passes, tracked: set<string>, tracked': set<string>, next: (nat, nat), drop: (nat, nat))
    requires IsItem(ps, next)
    requires tracked' == if next == drop then tracked - {KeyAt(ps, next)} else tracked + {KeyAt(ps, next)}
    requires forall a: (nat, nat) :: IsItem(ps, a) && Before(a, next) && Stays(ps, a, drop) ==> KeyAt(ps, a) in tracked
    ensures forall a: (nat, nat) :: IsItem(ps, a) && Before(a, (next.0, next.1 + 1)) && Stays(ps, a, drop) ==> KeyAt(ps, a) in tracked'
  {
    forall a: (nat, nat) | IsItem(ps, a) && Before(a, (next.0, next.1 + 1)) && Stays(ps, a, drop) ensures KeyAt(ps, a) in tracked' {
      assert a == next || Before(a, next);
    }
  }

  lemma WalkAll(ps: Passes, drop: (nat, nat)) returns (ops: seq<Op>)
    ensures Walked(ps, ops, (|ps.listings|, 0), drop)
  {
    ops := [];
    var g, i := 0, 0;
    while g < |ps.listings|
      invariant g <= |ps.listings| && (g < |ps.listings| ==> i <= |ps.listings[g].keys|) && (g == |ps.listings| ==> i == 0)
      invariant Walked(ps, ops, (g, i), drop)
      decreases |ps.listings| - g, if g < |ps.listings| then |ps.listings[g].keys| - i else 0
    {
      if i < |ps.listings[g].keys| {
        ops := WalkItem(ps, ops, (g, i), drop);
        i := i + 1;
      } else {
        WalkOn(ps, ops, g, drop);
        g, i := g + 1, 0;
      }
    }
  }

  lemma WalkOn(ps: Passes, ops: seq<Op>, g: nat, drop: (nat, nat))
    requires g < |ps.listings| && Walked(ps, ops, (g, |ps.listings[g].keys|), drop)
    ensures Walked(ps, ops, (g + 1, 0), drop)
  {
    forall a: (nat, nat) | IsItem(ps, a) && Before(a, (g + 1, 0)) ensures Before(a, (g, |ps.listings[g].keys|)) {}
  }

  /**
   All goroutines run to their end, `drop` alone is dropped if it is an item, and the passes sweep: a key
   that was tracked until then survives if and only if every pass of its name lists it.
   */
  lemma DropThenSweep(ps: Passes, drop: (nat, nat), key: string) returns (ops: seq<Op>)
    requires OwnKeys(ps)
    requires exists a: (nat, nat) :: IsItem(ps, a) && KeyAt(ps, a) == key && Stays(ps, a, drop)
    ensures Finished(ops, ps)
    ensures ProgressOf(ops, ps).lost == {}
    ensures ProgressOf(ops, ps).dropped == if IsItem(ps, drop) then {KeyAt(ps, drop)} else {}
    ensures key in Run(Board({}, {}), ops).tracked <==> ListedByAll(ps, AllPasses(ps), key)
  {
    ops := WalkAll(ps, drop);
    ScheduleIsSound(ps, {}, ops);
    ops := SweepEach(ps, ops, key, AllPasses(ps));
  }

  /** When all goroutines are done the passes may sweep, in any order. */
  lemma {:induction false} SweepEach(ps: Passes, ops: seq<Op>, key: string, todo: set<nat>) returns (ops': seq<Op>)
    requires Schedule(ops, ps) && Accounted(ps, ProgressOf(ops, ps), Run(Board({}, {}), ops).existing)
    requires todo <= AllPasses(ps) && ProgressOf(ops, ps).swept == AllPasses(ps) - todo
    requires forall g :: 0 <= g < |ps.listings| ==> ProgressOf(ops, ps).at[g].noted == |ps.listings[g].keys|
    requires key in Run(Board({}, {}), ops).tracked <==> ListedByAll(ps, ProgressOf(ops, ps).swept, key)
    ensures Finished(ops', ps)
    ensures ProgressOf(ops', ps).dropped == ProgressOf(ops, ps).dropped && ProgressOf(ops', ps).lost == ProgressOf(ops, ps).lost
    ensures key in Run(Board({}, {}), ops').tracked <==> ListedByAll(ps, AllPasses(ps), key)
    decreases todo
  {
    ops' := ops;
    if todo != {} {
      var p :| p in todo;
      ops' := SweepOne(ps, ops, key, p);
      ops' := SweepEach(ps, ops', key, todo - {p});
    } else {
      assert AllPasses(ps) - todo == AllPasses(ps);
    }
  }

  lemma SweepOne(ps: Passes, ops: seq<Op>, key: string, pass: nat) returns (ops': seq<Op>)
    requires Schedule(ops, ps) && Accounted(ps, ProgressOf(ops, ps), Run(Board({}, {}), ops).existing)
    requires pass < |ps.resources| && pass !in ProgressOf(ops, ps).swept
    requires forall g :: 0 <= g < |ps.listings| ==> ProgressOf(ops, ps).at[g].noted == |ps.listings[g].keys|
    requires key in Run(Board({}, {}), ops).tracked <==> ListedByAll(ps, ProgressOf(ops, ps).swept, key)
    ensures Schedule(ops', ps) && Accounted(ps, ProgressOf(ops', ps), Run(Board({}, {}), ops').existing)
    ensures ProgressOf(ops', ps) == ProgressOf(ops, ps).(swept := ProgressOf(ops, ps).swept + {pass})
    ensures key in Run(Board({}, {}), ops').tracked <==> ListedByAll(ps, ProgressOf(ops', ps).swept, key)
  {
    var p, b, sweep := ProgressOf(ops, ps), Run(Board({}, {}), ops), Sweep(pass, ps.resources[pass]);
    Extend(Board({}, {}), ops, sweep, ps);
    ops' := ops + [sweep];
    StepIsAccounted(ps, p, b, sweep);
    SweptKey(ps, p, b.existing, pass, key);
  }

  // ---------- Cleanup counters ----------

  function Count(counts: map<string, nat>, key: string): nat
  {
    if key in counts then counts[key] else 0
  }

  function Bumped(counts: map<string, nat>, key: string): map<string, nat>
  {
    counts[key := Count(counts, key) + 1]
  }

  /** The counters say exactly how often each type occurs in `cleaned`. */
  predicate Tallies(counts: map<string, nat>, cleaned: multiset<string>)
  {
    (forall k :: k in counts ==> counts[k] == cleaned[k]) && (forall k :: k in cleaned ==> k in counts)
  }

  /** The printed total, for the keys in whatever order they are printed. */
  function Total(counts: map<string, nat>, keys: seq<string>): nat
    requires forall k :: k in keys ==> k in counts
  {
    if keys == [] then 0 else counts[keys[0]] + Total(counts, keys[1..])
  }

  /** Per-type counts and the printed total account for every cleanup, whatever the order of the keys. */
  lemma {:induction false} TotalIsSize(counts: map<string, nat>, cleaned: multiset<string>, keys: seq<string>)
    requires Distinct(keys) && (forall k :: k in keys ==> k in counts && counts[k] == cleaned[k])
    requires forall k :: k in cleaned ==> k in keys
    ensures Total(counts, keys) == |cleaned|
  {
    if keys == [] {
      assert cleaned == multiset{};
    } else {
      var k, rest := keys[0], keys[1..];
      var less := cleaned[k := 0];
      assert k !in rest;
      forall j | j in less ensures j in rest {
        assert j in keys && j != k;
      }
      TotalIsSize(counts, less, rest);
      assert |cleaned| == |less| + cleaned[k];
    }
  }

  /** A successful Delete and its counting are separate steps, and many cleanups may be between the two. */
  datatype Event = Deleted(kind: string) | Counted(kind: string) | Sanitized

  datatype Books = Books(counts: map<string, nat>, deleted: multiset<string>, pending: multiset<string>)

  predicate CanHappen(b: Books, e: Event)
  {
    e.Counted? ==> e.kind in b.pending
  }

  /** Sanitizing leaves the counters alone. */
  function Happen(b: Books, e: Event): Books
  {
    match e
    case Deleted(k) => b.(deleted := b.deleted + multiset{k}, pending := b.pending + multiset{k})
    case Counted(k) => b.(counts := Bumped(b.counts, k), pending := b.pending - multiset{k})
    case Sanitized => b
  }

  predicate IsHistory(books: seq<Books>, events: seq<Event>)
  {
    && |books| == |events| + 1
    && books[0] == Books(map[], multiset{}, multiset{})
    && forall i :: 0 <= i < |events| ==> CanHappen(books[i], events[i]) && books[i + 1] == Happen(books[i], events[i])
  }

  ghost predicate Balanced(b: Books)
  {
    && (forall k :: Count(b.counts, k) + b.pending[k] == b.deleted[k])
    && (forall k :: k in b.counts ==> b.counts[k] > 0)
  }

  lemma HappenKeepsBalance(b: Books, e: Event)
    requires Balanced(b) && CanHappen(b, e)
    ensures Balanced(Happen(b, e))
  {
    var b' := Happen(b, e);
    forall k ensures Count(b'.counts, k) + b'.pending[k] == b'.deleted[k] {
      assert Count(b.counts, k) + b.pending[k] == b.deleted[k];
    }
  }

  /**
   Conservation: in every reachable state every successful Delete has either been counted under its
   type or is still pending, type by type, and so in total.
   */
  lemma {:induction false} Conservation(books: seq<Books>, events: seq<Event>, i: nat)
    requires IsHistory(books, events) && i < |books|
    ensures forall k :: (if k in books[i].counts then books[i].counts[k] else 0) + books[i].pending[k] == books[i].deleted[k]
    ensures Balanced(books[i])
  {
    if i > 0 {
      Conservation(books, events, i - 1);
      HappenKeepsBalance(books[i - 1], events[i - 1]);
    }
  }

  lemma ConservationOfTotal(books: seq<Books>, events: seq<Event>, i: nat, keys: seq<string>)
    requires IsHistory(books, events) && i < |books|
    requires Distinct(keys) && Elements(keys) == books[i].counts.Keys
    ensures forall k :: k in keys ==> k in books[i].counts
    ensures Total(books[i].counts, keys) + |books[i].pending| == |books[i].deleted|
  {
    Conservation(books, events, i);
    var b := books[i];
    assert forall k :: k in b.counts ==> Count(b.counts, k) == (b.deleted - b.pending)[k];
    assert forall k :: k in b.deleted - b.pending ==> Count(b.counts, k) > 0;
    forall k ensures k in keys <==> k in b.counts {
      assert k in keys <==> k in Elements(keys);
    }
    TotalIsSize(b.counts, b.deleted - b.pending, keys);
    assert b.deleted == (b.deleted - b.pending) + b.pending;
  }
}
