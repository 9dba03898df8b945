/**
 What one pass over a custom resource type lists: which namespaces it asks, which keys the answers
 hold, and when two of its goroutines list one key.
 */
module CrdListing {
  import opened Text
  import opened CrdSpec
  import opened Matching
  import opened NamespaceRace
  import opened NamespaceWatcher
  import opened NamespaceRuns
  import opened NamespaceLimits
  import opened Staleness
  import Tracks = CrdTracking

  function KeyOf(gvr: Gvr, r: Resource): string
  {
    Tracks.Key(gvr.resource, r.namespace, r.name)
  }

  /** The namespaces to ask: the cluster's own only when the list is empty or just the all-namespaces entry. */
  function Scope(watched: seq<string>, cluster: Option<seq<string>>): Option<seq<string>>
  {
    if watched == [] || watched == [""] then cluster else Some(watched)
  }

  type Lists = seq<Option<seq<Resource>>>

  /** A failed List contributes nothing. */
  function Items(list: Option<seq<Resource>>): seq<Resource>
  {
    if list.Some? then list.value else []
  }

  predicate InLists(lists: Lists, item: (nat, nat))
  {
    item.0 < |lists| && item.1 < |Items(lists[item.0])|
  }

  function ItemAt(lists: Lists, item: (nat, nat)): Resource
    requires InLists(lists, item)
  {
    Items(lists[item.0])[item.1]
  }

  function KeysOf(gvr: Gvr, items: seq<Resource>): seq<string>
  {
    seq(|items|, j requires 0 <= j < |items| => KeyOf(gvr, items[j]))
  }

  /** The pass as goroutines that list keys. */
  function PassOf(gvr: Gvr, lists: Lists): Tracks.Passes
  {
    Tracks.Passes([gvr.resource], seq(|lists|, i requires 0 <= i < |lists| => Tracks.Listing(0, KeysOf(gvr, Items(lists[i])))))
  }

  function Listed(gvr: Gvr, lists: Lists): set<string>
  {
    set i, j | 0 <= i < |lists| && 0 <= j < |Items(lists[i])| :: KeyOf(gvr, Items(lists[i])[j])
  }

  predicate SlashFree(gvr: Gvr, lists: Lists)
  {
    && '/' !in gvr.resource
    && forall i, j :: 0 <= i < |lists| && 0 <= j < |Items(lists[i])| ==>
                        '/' !in Items(lists[i])[j].namespace && '/' !in Items(lists[i])[j].name
  }

  lemma PassItems(gvr: Gvr, lists: Lists, item: (nat, nat))
    ensures Tracks.IsItem(PassOf(gvr, lists), item) <==> InLists(lists, item)
    ensures InLists(lists, item) ==> Tracks.KeyAt(PassOf(gvr, lists), item) == KeyOf(gvr, ItemAt(lists, item))
  {
  }

  /** The pass in terms of keys: they are of its own type, and these are the ones it lists. */
  lemma PassLists(gvr: Gvr, lists: Lists)
    requires SlashFree(gvr, lists)
    ensures Tracks.OwnKeys(PassOf(gvr, lists))
    ensures forall k :: Tracks.IsListed(PassOf(gvr, lists), k) <==> k in Listed(gvr, lists)
    ensures forall k :: Tracks.IsSwept(PassOf(gvr, lists), Tracks.AllPasses(PassOf(gvr, lists)), k) <==> Tracks.OfResource(k, gvr.resource)
    ensures Tracks.Alone(PassOf(gvr, lists))
  {
    var ps := PassOf(gvr, lists);
    forall g, k | 0 <= g < |ps.listings| && k in ps.listings[g].keys
      ensures Tracks.OfResource(k, gvr.resource) && k in Listed(gvr, lists)
    {
      var j :| 0 <= j < |ps.listings[g].keys| && ps.listings[g].keys[j] == k;
      var r := Items(lists[g])[j];
      Tracks.KeyRoundTrip(gvr.resource, r.namespace, r.name);
    }
    forall i, j | 0 <= i < |lists| && 0 <= j < |Items(lists[i])|
      ensures KeyOf(gvr, Items(lists[i])[j]) in ps.listings[i].keys
    {
      assert ps.listings[i].keys[j] == KeyOf(gvr, Items(lists[i])[j]);
    }
    assert Tracks.IsPass(ps, 0) && 0 in Tracks.AllPasses(ps);
  }

  // ---------- When two goroutines list one key ----------

  /** The resources a List in this namespace answers, which is all of them for the all-namespaces entry; some are in no namespace. */
  predicate ListsIt(namespace: string, r: Resource)
  {
    namespace == "" || r.namespace == namespace
  }

  /** The goroutines see one state of the cluster, and no list repeats a resource. */
  ghost predicate Snapshot(gvr: Gvr, names: seq<string>, resources: set<Resource>, lists: Lists)
  {
    && |lists| == |names| && SlashFree(gvr, lists)
    && (forall r, s :: r in resources && s in resources && r.namespace == s.namespace && r.name == s.name ==> r == s)
    && (forall i :: 0 <= i < |lists| ==> Distinct(Items(lists[i])))
    && (forall i, r :: 0 <= i < |lists| ==> (r in Items(lists[i]) <==> r in resources && ListsIt(names[i], r)))
  }

  /**
   Over distinct namespaces no key is listed twice, and so the tracked keys are exact under every
   interleaving, if and only if the all-namespaces entry does not stand beside an entry whose
   namespace holds a resource of the type.
   */
  lemma ExactScopeIff(gvr: Gvr, names: seq<string>, resources: set<Resource>, lists: Lists)
    requires Distinct(names) && Snapshot(gvr, names, resources, lists)
    ensures Tracks.AlwaysExact(PassOf(gvr, lists)) <==> ("" in names ==> forall r :: r in resources && r.namespace != "" ==> r.namespace !in names)
  {
    PassLists(gvr, lists);
    var ps := PassOf(gvr, lists);
    Tracks.ExactIff(ps);
    if "" in names && exists r :: r in resources && r.namespace != "" && r.namespace in names {
      var r :| r in resources && r.namespace != "" && r.namespace in names;
      SharedKey(gvr, names, resources, lists, r);
    } else {
      forall a: (nat, nat), b: (nat, nat) | Tracks.IsItem(ps, a) && Tracks.IsItem(ps, b) && Tracks.KeyAt(ps, a) == Tracks.KeyAt(ps, b)
        ensures a == b
      {
        PassItems(gvr, lists, a);
        PassItems(gvr, lists, b);
        SameItem(gvr, names, resources, lists, a, b);
      }
    }
  }

  lemma SameItem(gvr: Gvr, names: seq<string>, resources: set<Resource>, lists: Lists, a: (nat, nat), b: (nat, nat))
    requires Distinct(names) && Snapshot(gvr, names, resources, lists)
    requires "" in names ==> forall r :: r in resources && r.namespace != "" ==> r.namespace !in names
    requires InLists(lists, a) && InLists(lists, b) && KeyOf(gvr, ItemAt(lists, a)) == KeyOf(gvr, ItemAt(lists, b))
    ensures a == b
  {
    var r, s := ItemAt(lists, a), ItemAt(lists, b);
    Tracks.KeyIsInjective(gvr.resource, r.namespace, r.name, gvr.resource, s.namespace, s.name);
    assert r in Items(lists[a.0]) && ItemAt(lists, b) in Items(lists[b.0]);
    assert r == ItemAt(lists, b);
    assert ListsIt(names[a.0], r) && ListsIt(names[b.0], r);
    assert names[a.0] in names && names[b.0] in names;
    assert names[a.0] == names[b.0];
  }

  lemma SharedKey(gvr: Gvr, names: seq<string>, resources: set<Resource>, lists: Lists, r: Resource)
    requires Snapshot(gvr, names, resources, lists)
    requires "" in names && r in resources && r.namespace != "" && r.namespace in names
    ensures !Tracks.ListedOnce(PassOf(gvr, lists))
  {
    var g := Whereabouts(gvr, names, resources, lists, "", r);
    var h := Whereabouts(gvr, names, resources, lists, r.namespace, r);
    PassItems(gvr, lists, g);
    PassItems(gvr, lists, h);
    assert g.0 != h.0;
  }

  lemma Whereabouts(gvr: Gvr, names: seq<string>, resources: set<Resource>, lists: Lists, namespace: string, r: Resource)
    returns (item: (nat, nat))
    requires Snapshot(gvr, names, resources, lists) && namespace in names && r in resources && ListsIt(namespace, r)
    ensures InLists(lists, item) && names[item.0] == namespace && ItemAt(lists, item) == r
  {
    var g: nat :| g < |names| && names[g] == namespace;
    assert r in Items(lists[g]);
    var i: nat :| i < |Items(lists[g])| && Items(lists[g])[i] == r;
    item := (g, i);
  }

  /**
   The healer does get there: started with nothing, as after a wildcard that matches nothing, one poll
   that finds a first namespace puts it beside the all-namespaces entry. From then on the list is no
   longer expanded, and a pass over a type with a resource in that namespace is not exact.
   */
  lemma InexactScopeIsReached(cfg: Config, m: string, gvr: Gvr, resources: set<Resource>, lists: Lists)
    returns (states: seq<Tracking>, rounds: seq<Round>)
    requires cfg.pattern != "" && Glob(cfg.pattern, m) && Clean(m) && m != ""
    requires Snapshot(gvr, ["", m], resources, lists) && exists r :: r in resources && r.namespace == m
    ensures IsRun(cfg, states, rounds) && states[0] == Started([]) && states[|rounds|].names == ["", m]
    ensures forall cluster :: Scope(states[|rounds|].names, cluster) == Some(["", m])
    ensures !Tracks.AlwaysExact(PassOf(gvr, lists))
  {
    var r := FirstFound(cfg, m);
    states, rounds := [Started([]), Tracking(["", m], {m})], [r];
    OneRoundRun(cfg, states, rounds);
    SharesWith(gvr, m, resources, lists);
  }

  lemma OneRoundRun(cfg: Config, states: seq<Tracking>, rounds: seq<Round>)
    requires |states| == 2 && |rounds| == 1 && CleanRound(rounds[0]) && PollResult(cfg, states[0], rounds[0], states[1])
    ensures IsRun(cfg, states, rounds)
  {
    forall i | 0 <= i < |rounds| ensures PollResult(cfg, states[i], rounds[i], states[i + 1]) {
      assert i == 0;
    }
  }

  lemma SharesWith(gvr: Gvr, m: string, resources: set<Resource>, lists: Lists)
    requires m != "" && Snapshot(gvr, ["", m], resources, lists) && exists r :: r in resources && r.namespace == m
    ensures !Tracks.AlwaysExact(PassOf(gvr, lists))
  {
    var x :| x in resources && x.namespace == m;
    assert m == ["", m][1] && "" == ["", m][0];
    ExactScopeIff(gvr, ["", m], resources, lists);
  }

  lemma FirstFound(cfg: Config, m: string) returns (r: Round)
    requires cfg.pattern != "" && Glob(cfg.pattern, m) && Clean(m) && m != ""
    ensures CleanRound(r) && Started([]) == Tracking([""], {}) && PollResult(cfg, Started([]), r, Tracking(["", m], {m}))
  {
    NoElements<string>([]);
    r := Round(Some([Young(cfg, m)]), 0, (n: string) => Replies(Success, Success, Success));
    var s, list := Tracking([""], {}), [Young(cfg, m)];
    NoInitialPrefix();
    assert cfg.pattern in Patterns(cfg, s.names);
    assert list[0].name == m;
    assert Existing(list) == {m};
    assert Stale(cfg, s.names, list, r.now) == {};
    assert Gone(cfg, s, r) == {};
    DropNothing(s.names);
    assert ["", m][|s.names|..] == [m];
    assert Elements([m]) == {m};
    assert [""] + [m] == ["", m];
  }
}
