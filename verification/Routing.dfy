/** Additive context routing, the pack's reference check, and the repair that satisfies it. */
module Routing {
  import opened Basics
  import Glob

  datatype ReviewProfile = ReviewProfile(depth: string, focus: seq<string>, docs: seq<string>, tests: seq<string>,
      runTests: bool)

  type Profiles = map<string, ReviewProfile>

  datatype Route = Route(name: string, paths: seq<string>, activateProfiles: seq<string>)

  datatype RoutingTable = RoutingTable(mandatoryProfiles: seq<string>, requiredContext: seq<string>, routes: seq<Route>)

  datatype Subsystem = Subsystem(name: string, path: string)

  datatype Invariant = Invariant(id: string, appliesTo: seq<string>)

  datatype Pack = Pack(routing: RoutingTable, profiles: Profiles, subsystems: seq<Subsystem>,
      invariants: seq<Invariant>)

  datatype Context = Context(
    activeProfiles: seq<string>,
    profiles: seq<ReviewProfile>,
    tests: seq<string>,
    requiredDocs: seq<string>,
    subsystems: seq<Subsystem>,
    invariants: seq<Invariant>
  )

  // ---- selection by changed paths ------------------------------------------------------------------

  predicate MatchesAny(glob: string, paths: seq<string>) {
    exists p | p in paths :: Glob.GlobMatch(glob, p)
  }

  predicate Fires(globs: seq<string>, paths: seq<string>) {
    exists g | g in globs :: MatchesAny(g, paths)
  }

  predicate Activates(route: Route, paths: seq<string>, name: string) {
    Fires(route.paths, paths) && name in route.activateProfiles
  }

  predicate Active(routing: RoutingTable, paths: seq<string>, name: string) {
    name in routing.mandatoryProfiles || exists route | route in routing.routes :: Activates(route, paths, name)
  }

  predicate Touched(s: Subsystem, paths: seq<string>) {
    exists p | p in paths :: p == s.path || s.path + "/" <= p
  }

  predicate RunsTest(pack: Pack, paths: seq<string>, test: string) {
    exists name | name in pack.profiles :: Active(pack.routing, paths, name) && test in pack.profiles[name].tests
  }

  predicate NeedsDoc(pack: Pack, paths: seq<string>, doc: string) {
    || doc in pack.routing.requiredContext
    || exists name | name in pack.profiles :: Active(pack.routing, paths, name) && doc in pack.profiles[name].docs
  }

  function Filter<T(!new)>(items: seq<T>, keep: T -> bool): (kept: seq<T>)
    ensures forall x :: x in kept <==> x in items && keep(x)
    ensures (forall x | x in items :: keep(x)) ==> kept == items
  {
    if items == [] then []
    else
      var n := |items| - 1;
      Filter(items[..n], keep) + if keep(items[n]) then [items[n]] else []
  }

  /** The profiles `names` stand for, undefined names skipped. */
  function Defined(names: seq<string>, profiles: Profiles): seq<ReviewProfile> {
    if names == [] then []
    else
      var n := |names| - 1;
      Defined(names[..n], profiles) + if names[n] in profiles then [profiles[names[n]]] else []
  }

  ghost predicate Distinct(items: seq<string>) {
    forall i, j | 0 <= i < j < |items| :: items[i] != items[j]
  }

  /** Adding to a set that remembers insertion order. */
  function Add(items: seq<string>, x: string): (r: seq<string>)
    ensures forall y :: y in r <==> y in items || y == x
    ensures Distinct(items) ==> Distinct(r)
  {
    if x in items then items else items + [x]
  }

  method AddAll(items: seq<string>, more: seq<string>) returns (r: seq<string>)
    requires Distinct(items)
    ensures Distinct(r) && forall y :: y in r <==> y in items || y in more
  {
    r := items;
    for i := 0 to |more|
      invariant Distinct(r) && forall y :: y in r <==> y in items || y in more[..i]
    {
      r := Add(r, more[i]);
    }
  }

  ghost predicate ActiveUpTo(routing: RoutingTable, n: nat, paths: seq<string>, name: string)
    requires n <= |routing.routes|
  {
    name in routing.mandatoryProfiles || exists i | 0 <= i < n :: Activates(routing.routes[i], paths, name)
  }

  method ActiveProfiles(routing: RoutingTable, paths: seq<string>) returns (active: seq<string>)
    ensures Distinct(active) && forall name :: name in active <==> Active(routing, paths, name)
  {
    active := AddAll([], routing.mandatoryProfiles);
    for i := 0 to |routing.routes|
      invariant Distinct(active)
      invariant forall name :: name in active <==> ActiveUpTo(routing, i, paths, name)
    {
      if Fires(routing.routes[i].paths, paths) {
        active := AddAll(active, routing.routes[i].activateProfiles);
      }
      assert forall name :: ActiveUpTo(routing, i + 1, paths, name)
                       <==> ActiveUpTo(routing, i, paths, name) || Activates(routing.routes[i], paths, name);
    }
    forall name
      ensures name in active <==> Active(routing, paths, name)
    {
      if route :| route in routing.routes && Activates(route, paths, name) {
        var i :| 0 <= i < |routing.routes| && routing.routes[i] == route;
      }
    }
  }

  /** Some profile among the first `n` names lists `test`. */
  ghost predicate ListedBy(names: seq<string>, n: nat, profiles: Profiles, test: string)
    requires n <= |names|
  {
    exists i | 0 <= i < n :: names[i] in profiles && test in profiles[names[i]].tests
  }

  ghost predicate DocumentedBy(names: seq<string>, n: nat, profiles: Profiles, doc: string)
    requires n <= |names|
  {
    exists i | 0 <= i < n :: names[i] in profiles && doc in profiles[names[i]].docs
  }

  /** The definitions, docs and tests of the active profiles, in one pass. */
  method GatherProfiles(
    pack: Pack, active: seq<string>
  ) returns (profiles: seq<ReviewProfile>, docs: seq<string>, tests: seq<string>)
    ensures profiles == Defined(active, pack.profiles)
    ensures Distinct(tests) && forall t :: t in tests <==> ListedBy(active, |active|, pack.profiles, t)
    ensures Distinct(docs) && forall d :: d in docs <==>
        d in pack.routing.requiredContext || DocumentedBy(active, |active|, pack.profiles, d)
  {
    profiles, tests := [], [];
    docs := AddAll([], pack.routing.requiredContext);
    for i := 0 to |active|
      invariant profiles == Defined(active[..i], pack.profiles)
      invariant Distinct(tests) && forall t :: t in tests <==> ListedBy(active, i, pack.profiles, t)
      invariant Distinct(docs) && forall d ::
          d in docs <==> d in pack.routing.requiredContext || DocumentedBy(active, i, pack.profiles, d)
    {
      assert active[..i + 1][..i] == active[..i];
      if active[i] !in pack.profiles {
        continue;
      }
      var profile := pack.profiles[active[i]];
      profiles := profiles + [profile];
      docs := AddAll(docs, profile.docs);
      tests := AddAll(tests, profile.tests);
    }
    assert active[..|active|] == active;
  }

  lemma {:induction false} DefinedComplete(names: seq<string>, profiles: Profiles)
    requires forall name | name in names :: name in profiles
    ensures |Defined(names, profiles)| == |names|
    ensures forall i | 0 <= i < |names| :: Defined(names, profiles)[i] == profiles[names[i]]
  {
    if names == [] {
    } else {
      var n := |names| - 1;
      assert names == names[..n] + [names[n]];
      DefinedComplete(names[..n], profiles);
    }
  }

  /** Every profile that routing can activate is defined. */
  ghost predicate Consistent(routing: RoutingTable, profiles: Profiles) {
    && (forall route, name | route in routing.routes && name in route.activateProfiles :: name in profiles)
    && (forall name | name in routing.mandatoryProfiles :: name in profiles)
  }

  lemma TouchedByPath(s: Subsystem, p: string)
    ensures s.path + "/" <= p <==> |p| > |s.path| && p[..|s.path|] == s.path && p[|s.path|] == '/'
  {
    if s.path + "/" <= p {
      assert p[..|s.path|] == (s.path + "/")[..|s.path|];
    }
  }

  /** What the selection predicates say of paths and globs. */
  lemma SelectsByPath(pack: Pack, paths: seq<string>)
    ensures forall s :: Touched(s, paths) <==> exists p | p in paths ::
              p == s.path || (|p| > |s.path| && p[..|s.path|] == s.path && p[|s.path|] == '/')
    ensures forall globs :: Fires(globs, paths) <==> exists g, p | g in globs && p in paths :: Glob.GlobMatch(g, p)
    ensures forall name :: Active(pack.routing, paths, name) <==>
              || name in pack.routing.mandatoryProfiles
              || exists route, g, p | route in pack.routing.routes && g in route.paths && p in paths ::
                   Glob.GlobMatch(g, p) && name in route.activateProfiles
  {
    forall s: Subsystem, p | p in paths
      ensures s.path + "/" <= p <==> |p| > |s.path| && p[..|s.path|] == s.path && p[|s.path|] == '/'
    {
      TouchedByPath(s, p);
    }
  }

  /**
    The narrowed slice for the changed paths: exactly the active profiles, each once, with
    their tests; the touched subsystems; the invariants that apply.
   */
  method ResolveContext(pack: Pack, paths: seq<string>) returns (c: Context)
    ensures Distinct(c.activeProfiles) && forall name :: name in c.activeProfiles <==> Active(pack.routing, paths, name)
    ensures c.profiles == Defined(c.activeProfiles, pack.profiles)
    ensures Distinct(c.tests) && forall t :: t in c.tests <==> RunsTest(pack, paths, t)
    ensures Distinct(c.requiredDocs) && forall d :: d in c.requiredDocs <==> NeedsDoc(pack, paths, d)
    ensures c.subsystems == Filter(pack.subsystems, s => Touched(s, paths))
    ensures forall s :: s in c.subsystems <==>
              s in pack.subsystems && exists p | p in paths ::
                p == s.path || (|p| > |s.path| && p[..|s.path|] == s.path && p[|s.path|] == '/')
    ensures forall inv :: inv in c.invariants <==>
              inv in pack.invariants && exists g, p | g in inv.appliesTo && p in paths :: Glob.GlobMatch(g, p)
    ensures forall name :: name in c.activeProfiles <==>
              || name in pack.routing.mandatoryProfiles
              || exists route, g, p | route in pack.routing.routes && g in route.paths && p in paths ::
                   Glob.GlobMatch(g, p) && name in route.activateProfiles
    ensures c.invariants == Filter(pack.invariants, (inv: Invariant) => Fires(inv.appliesTo, paths))
    ensures Consistent(pack.routing, pack.profiles) ==>
              |c.profiles| == |c.activeProfiles|
              && forall i | 0 <= i < |c.profiles| ::
                  c.activeProfiles[i] in pack.profiles && c.profiles[i] == pack.profiles[c.activeProfiles[i]]
  {
    var active := ActiveProfiles(pack.routing, paths);
    var profiles, docs, tests := GatherProfiles(pack, active);
    forall t
      ensures t in tests <==> RunsTest(pack, paths, t)
    {
      if name :| name in pack.profiles && Active(pack.routing, paths, name) && t in pack.profiles[name].tests {
        var i :| 0 <= i < |active| && active[i] == name;
      }
    }
    forall d
      ensures d in docs <==> NeedsDoc(pack, paths, d)
    {
      if name :| name in pack.profiles && Active(pack.routing, paths, name) && d in pack.profiles[name].docs {
        var i :| 0 <= i < |active| && active[i] == name;
      }
    }
    if Consistent(pack.routing, pack.profiles) {
      DefinedComplete(active, pack.profiles);
    }
    SelectsByPath(pack, paths);
    c := Context(
      active, profiles, tests, docs, Filter(pack.subsystems, s => Touched(s, paths)),
      Filter(pack.invariants, (inv: Invariant) => Fires(inv.appliesTo, paths)));
  }

  lemma FiresAdditive(globs: seq<string>, a: seq<string>, b: seq<string>)
    ensures Fires(globs, a + b) <==> Fires(globs, a) || Fires(globs, b)
  {
    forall g | g in globs
      ensures MatchesAny(g, a + b) <==> MatchesAny(g, a) || MatchesAny(g, b)
    {
    }
  }

  lemma ActiveAdditive(routing: RoutingTable, a: seq<string>, b: seq<string>, name: string)
    ensures Active(routing, a + b, name) <==> Active(routing, a, name) || Active(routing, b, name)
  {
    forall route | route in routing.routes
      ensures Activates(route, a + b, name) <==> Activates(route, a, name) || Activates(route, b, name)
    {
      FiresAdditive(route.paths, a, b);
    }
  }

  /** Routing is additive: a change list made of two selects the union of what each selects. */
  lemma ResolutionIsAdditive(pack: Pack, a: seq<string>, b: seq<string>)
    ensures forall name :: Active(pack.routing, a + b, name) <==>
        Active(pack.routing, a, name) || Active(pack.routing, b, name)
    ensures forall t :: RunsTest(pack, a + b, t) <==> RunsTest(pack, a, t) || RunsTest(pack, b, t)
    ensures forall d :: NeedsDoc(pack, a + b, d) <==> NeedsDoc(pack, a, d) || NeedsDoc(pack, b, d)
    ensures forall s | s in pack.subsystems :: Touched(s, a + b) <==> Touched(s, a) || Touched(s, b)
    ensures forall inv | inv in pack.invariants ::
        Fires(inv.appliesTo, a + b) <==> Fires(inv.appliesTo, a) || Fires(inv.appliesTo, b)
  {
    forall name
      ensures Active(pack.routing, a + b, name) <==> Active(pack.routing, a, name) || Active(pack.routing, b, name)
    {
      ActiveAdditive(pack.routing, a, b, name);
    }
    forall s | s in pack.subsystems
      ensures Touched(s, a + b) <==> Touched(s, a) || Touched(s, b)
    {
      assert forall p :: p in a + b <==> p in a || p in b;
    }
    forall inv | inv in pack.invariants
      ensures Fires(inv.appliesTo, a + b) <==> Fires(inv.appliesTo, a) || Fires(inv.appliesTo, b)
    {
      FiresAdditive(inv.appliesTo, a, b);
    }
  }

  // ---- references ----------------------------------------------------------------------------------

  datatype Problem = UnknownRouteProfile(route: string, profile: string) | UnknownMandatoryProfile(profile: string)

  /** The loader's check: it reports a reference exactly when one is unresolved. */
  method CheckReferences(routing: RoutingTable, profiles: Profiles) returns (problem: Option<Problem>)
    ensures problem.None? <==> Consistent(routing, profiles)
    ensures problem.Some? ==> problem.value.profile !in profiles
  {
    for i := 0 to |routing.routes|
      invariant forall k, name | 0 <= k < i && name in routing.routes[k].activateProfiles :: name in profiles
    {
      var route := routing.routes[i];
      for j := 0 to |route.activateProfiles|
        invariant forall name | name in route.activateProfiles[..j] :: name in profiles
      {
        if route.activateProfiles[j] !in profiles {
          assert route in routing.routes;
          return Some(UnknownRouteProfile(route.name, route.activateProfiles[j]));
        }
      }
    }
    for i := 0 to |routing.mandatoryProfiles|
      invariant forall name | name in routing.mandatoryProfiles[..i] :: name in profiles
    {
      if routing.mandatoryProfiles[i] !in profiles {
        return Some(UnknownMandatoryProfile(routing.mandatoryProfiles[i]));
      }
    }
    problem := None;
  }

  const SECURITY_BASELINE := "security-baseline"

  const DEFAULT_BASELINE := ReviewProfile("normal", ["data_leak", "authz", "session"], ["AGENTS.md"], [], false)

  /** The profiles with the security baseline among them. */
  function WithBaseline(profiles: Profiles): (defined: Profiles)
    ensures defined.Keys == profiles.Keys + {SECURITY_BASELINE}
    ensures forall name | name in profiles :: defined[name] == profiles[name]
  {
    if SECURITY_BASELINE in profiles then profiles else profiles[SECURITY_BASELINE := DEFAULT_BASELINE]
  }

  /** The names that are defined, in order. */
  function Resolved(names: seq<string>, defined: Profiles): (r: seq<string>)
    ensures forall name :: name in r <==> name in names && name in defined
    ensures (forall name | name in names :: name in defined) ==> r == names
  {
    Filter(names, name => name in defined)
  }

  function RepairRoutes(routes: seq<Route>, defined: Profiles): (r: seq<Route>)
    ensures |r| == |routes|
    ensures forall i | 0 <= i < |routes| ::
              r[i] == routes[i].(activateProfiles := Resolved(routes[i].activateProfiles, defined))
  {
    if routes == [] then []
    else
      var n := |routes| - 1;
      RepairRoutes(routes[..n], defined)
        + [routes[n].(activateProfiles := Resolved(routes[n].activateProfiles, defined))]
  }

  /** The defined mandatory names, the security baseline first if it is not among them. */
  function Mandated(mandatory: seq<string>, defined: Profiles): seq<string> {
    var kept := Resolved(mandatory, defined);
    if SECURITY_BASELINE in kept then kept else [SECURITY_BASELINE] + kept
  }

  function Repair(routing: RoutingTable, profiles: Profiles): (RoutingTable, Profiles) {
    var defined := WithBaseline(profiles);
    var mandatory, routes := Mandated(routing.mandatoryProfiles, defined), RepairRoutes(routing.routes, defined);
    (routing.(mandatoryProfiles := mandatory, routes := routes), defined)
  }

  /** What the repair produces always passes the loader's check. */
  lemma RepairIsConsistent(routing: RoutingTable, profiles: Profiles)
    ensures Consistent(Repair(routing, profiles).0, Repair(routing, profiles).1)
    ensures SECURITY_BASELINE in Repair(routing, profiles).0.mandatoryProfiles
  {
    var (r, p) := Repair(routing, profiles);
    forall route, name | route in r.routes && name in route.activateProfiles
      ensures name in p
    {
      var i :| 0 <= i < |r.routes| && r.routes[i] == route;
    }
  }

  /** `some` can be read off `all` at the increasing positions `at`. */
  ghost predicate ReadsOff(some: seq<string>, all: seq<string>, at: seq<nat>) {
    && |at| == |some|
    && (forall i | 0 <= i < |at| :: at[i] < |all| && some[i] == all[at[i]])
    && (forall i, j | 0 <= i < j < |at| :: at[i] < at[j])
  }

  ghost predicate InOrder(some: seq<string>, all: seq<string>) {
    exists at :: ReadsOff(some, all, at)
  }

  /** `kept` is what is left of `items` in order, each occurrence, when all but the names of `profiles` go. */
  ghost predicate KeepsDefined(items: seq<string>, kept: seq<string>, profiles: Profiles) {
    InOrder(kept, items) && forall x :: multiset(kept)[x] == if x in profiles then multiset(items)[x] else 0
  }

  /** The resolved mandatory names, behind the security baseline if it was not among them. */
  ghost predicate MandatoryRepaired(mandatory: seq<string>, mandatory': seq<string>, profiles: Profiles) {
    if SECURITY_BASELINE in mandatory then KeepsDefined(mandatory, mandatory', profiles)
    else
      mandatory' != [] && mandatory'[0] == SECURITY_BASELINE && KeepsDefined(mandatory, mandatory'[1..], profiles)
  }

  /** Each route keeps its name and paths, and the profiles that resolve. */
  ghost predicate RoutesRepaired(routes: seq<Route>, routes': seq<Route>, profiles: Profiles) {
    && |routes'| == |routes|
    && forall i | 0 <= i < |routes| ::
         && routes'[i].name == routes[i].name && routes'[i].paths == routes[i].paths
         && KeepsDefined(routes[i].activateProfiles, routes'[i].activateProfiles, profiles)
  }

  /** What a repair may change: unresolved names go, the security baseline comes first if it was not mandated. */
  ghost predicate Repaired(routing: RoutingTable, profiles: Profiles, routing': RoutingTable, profiles': Profiles) {
    && profiles'.Keys == profiles.Keys + {SECURITY_BASELINE}
    && (forall name | name in profiles :: profiles'[name] == profiles[name])
    && routing'.requiredContext == routing.requiredContext
    && RoutesRepaired(routing.routes, routing'.routes, profiles')
    && MandatoryRepaired(routing.mandatoryProfiles, routing'.mandatoryProfiles, profiles')
  }

  lemma ReadsOneMore(some: seq<string>, all: seq<string>, at: seq<nat>)
    requires all != [] && ReadsOff(some, all[..|all| - 1], at)
    ensures ReadsOff(some + [all[|all| - 1]], all, at + [|all| - 1])
  {
  }

  lemma {:induction false} FilterInOrder(items: seq<string>, keep: string -> bool) returns (at: seq<nat>)
    ensures ReadsOff(Filter(items, keep), items, at)
  {
    if items == [] {
      at := [];
    } else {
      var n := |items| - 1;
      var kept := Filter(items[..n], keep);
      at := FilterInOrder(items[..n], keep);
      if keep(items[n]) {
        ReadsOneMore(kept, items, at);
        assert Filter(items, keep) == kept + [items[n]];
        at := at + [n];
      } else {
        assert Filter(items, keep) == kept;
        assert ReadsOff(kept, items, at);
      }
    }
  }

  lemma {:induction false} FilterCounts(items: seq<string>, keep: string -> bool, x: string)
    ensures multiset(Filter(items, keep))[x] == if keep(x) then multiset(items)[x] else 0
  {
    if items != [] {
      var n := |items| - 1;
      FilterCounts(items[..n], keep, x);
      assert items == items[..n] + [items[n]];
    }
  }

  lemma FilterKeepsDefined(items: seq<string>, profiles: Profiles)
    ensures KeepsDefined(items, Resolved(items, profiles), profiles)
  {
    var keep := (name: string) => name in profiles;
    var at := FilterInOrder(items, keep);
    forall x
      ensures multiset(Filter(items, keep))[x] == if x in profiles then multiset(items)[x] else 0
    {
      FilterCounts(items, keep, x);
    }
  }

  lemma RoutesKept(routes: seq<Route>, defined: Profiles)
    ensures RoutesRepaired(routes, RepairRoutes(routes, defined), defined)
  {
    forall i | 0 <= i < |routes|
      ensures KeepsDefined(routes[i].activateProfiles, RepairRoutes(routes, defined)[i].activateProfiles, defined)
    {
      FilterKeepsDefined(routes[i].activateProfiles, defined);
    }
  }

  lemma MandatoryKept(mandatory: seq<string>, defined: Profiles)
    requires SECURITY_BASELINE in defined
    ensures MandatoryRepaired(mandatory, Mandated(mandatory, defined), defined)
  {
    var kept := Resolved(mandatory, defined);
    FilterKeepsDefined(mandatory, defined);
    assert ([SECURITY_BASELINE] + kept)[1..] == kept;
  }

  lemma RepairKeeps(routing: RoutingTable, profiles: Profiles)
    ensures Repaired(routing, profiles, Repair(routing, profiles).0, Repair(routing, profiles).1)
  {
    var defined := WithBaseline(profiles);
    MandatoryKept(routing.mandatoryProfiles, defined);
    RoutesKept(routing.routes, defined);
  }

  method ReconcileRoutingProfiles(
    routing: RoutingTable, profiles: Profiles
  ) returns (routing': RoutingTable, profiles': Profiles)
    ensures (routing', profiles') == Repair(routing, profiles)
    ensures Consistent(routing', profiles') && SECURITY_BASELINE in routing'.mandatoryProfiles
    ensures Repaired(routing, profiles, routing', profiles')
  {
    RepairKeeps(routing, profiles);
    var defined := WithBaseline(profiles);
    var mandatory := Resolved(routing.mandatoryProfiles, defined);
    if SECURITY_BASELINE !in mandatory {
      mandatory := [SECURITY_BASELINE] + mandatory;
    }
    var routes := RepairRoutes(routing.routes, defined);
    routing', profiles' := routing.(mandatoryProfiles := mandatory, routes := routes), defined;
    RepairIsConsistent(routing, profiles);
  }

  /** The repair leaves alone exactly what passes the check and mandates the security baseline. */
  lemma RepairFixesExactly(routing: RoutingTable, profiles: Profiles)
    ensures Repair(routing, profiles) == (routing, profiles)
       <==> Consistent(routing, profiles) && SECURITY_BASELINE in routing.mandatoryProfiles
  {
    RepairIsConsistent(routing, profiles);
    if Consistent(routing, profiles) && SECURITY_BASELINE in routing.mandatoryProfiles {
      var routes := RepairRoutes(routing.routes, profiles);
      forall i | 0 <= i < |routing.routes|
        ensures routes[i] == routing.routes[i]
      {
        assert routing.routes[i] in routing.routes;
      }
      assert routes == routing.routes;
    }
  }

  /** Hence repairing twice is repairing once. */
  lemma RepairIsIdempotent(routing: RoutingTable, profiles: Profiles)
    ensures var (r, p) := Repair(routing, profiles); Repair(r, p) == (r, p)
  {
    var (r, p) := Repair(routing, profiles);
    RepairIsConsistent(routing, profiles);
    RepairFixesExactly(r, p);
  }
}
