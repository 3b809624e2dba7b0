/**
 Simple dev mode: scan the manifest for components built locally, build them,
 deploy the application, then turn each batch of filesystem events into
 rebuilds of the affected components, stopping a running instance after a
 successful rebuild so that the platform restarts it from the new artifact.

 The external operations are not run: the claims an inspection returns and
 the success of every build are oracle parameters, and the builds, stops and
 deployment calls the core issues are recorded as a trace of actions.
 */
module Dev {
  import opened Helper
  import opened Manifest
  import opened DevPaths

  /** A debounced filesystem event: the paths it touches. */
  datatype Event = Event(paths: seq<string>)

  /** One message from the debouncer channel: a batch of events or of watch errors. */
  datatype DebounceResult = Events(events: seq<Event>) | Errors(errors: seq<string>)

  /**
   A received message together with the roots whose rebuild succeeds while it
   is handled (the build outcomes are not computed by this model).
   */
  datatype Received = Received(result: DebounceResult, succeeded: set<string>)

  /** The external operations issued by the core, in the order issued. */
  datatype Action =
    | BuildActor(path: string)
    | StopActor(moduleId: string)
    | BuildProvider(path: string)
    | StopProvider(service: string, contractId: string)
    | PutApp
    | DeployApp

  /** An actor component whose inspected claims are actor claims. */
  predicate ActorPair(e: Entry)
  {
    e.0.properties.ActorComponent? && e.1.Actor?
  }

  /** A capability component whose inspected claims are provider claims. */
  predicate ProviderPair(e: Entry)
  {
    e.0.properties.CapabilityComponent? && e.1.Provider?
  }

  ghost predicate Distinct(xs: seq<string>)
  {
    forall i, j :: 0 <= i < j < |xs| ==> xs[i] != xs[j]
  }

  /** `order` lists every element of `keys` exactly once, in some order. */
  ghost predicate Enumerates(order: seq<string>, keys: set<string>)
  {
    Distinct(order) && forall p :: p in order <==> p in keys
  }

  // ---------------------------------------------------------------------------
  // Manifest scan (`setup_image_maping`)
  // ---------------------------------------------------------------------------

  /**
   One component of the scan: a local one is inspected under its raw artifact
   path and filed under its normalised path, replacing what was there; any
   other one leaves the state as it is. Claims kind and component kind are
   not compared.
   */
  function ScanComponent(state: map<string, Entry>, c: Component, inspect: string -> ComponentClaims): map<string, Entry>
  {
    var image := c.properties.Image();
    if IsLocalImage(image) then
      state[NormalizedPath(c.properties) := (c, inspect(RawArtifactPath(image)))]
    else
      state
  }

  /** The state after scanning `cs` in order. */
  function Scan(state: map<string, Entry>, cs: seq<Component>, inspect: string -> ComponentClaims): map<string, Entry>
  {
    if cs == [] then state
    else ScanComponent(Scan(state, cs[..|cs| - 1], inspect), cs[|cs| - 1], inspect)
  }

  /** A scanned component is filed under `key`. */
  predicate FiledUnder(c: Component, key: string)
  {
    IsLocalImage(c.properties.Image()) && NormalizedPath(c.properties) == key
  }

  /** A key in the scanned state was there before or is the key of a local component. */
  lemma {:induction false} ScanKeysFrom(state: map<string, Entry>, cs: seq<Component>, inspect: string -> ComponentClaims, key: string)
    requires key in Scan(state, cs, inspect)
    ensures key in state || exists i :: 0 <= i < |cs| && FiledUnder(cs[i], key)
  {
    if cs != [] {
      var init, last := cs[..|cs| - 1], cs[|cs| - 1];
      if !FiledUnder(last, key) {
        ScanKeysFrom(state, init, inspect, key);
        if key !in state {
          var i :| 0 <= i < |init| && FiledUnder(init[i], key);
          assert cs[i] == init[i];
        }
      } else {
        assert FiledUnder(cs[|cs| - 1], key);
      }
    }
  }

  /** The scan keeps every key it starts with. */
  lemma {:induction false} ScanKeepsKey(state: map<string, Entry>, cs: seq<Component>, inspect: string -> ComponentClaims, key: string)
    requires key in state
    ensures key in Scan(state, cs, inspect)
  {
    if cs != [] {
      ScanKeepsKey(state, cs[..|cs| - 1], inspect, key);
    }
  }

  /** The scan adds the key of every local component. */
  lemma {:induction false} ScanAddsKey(state: map<string, Entry>, cs: seq<Component>, inspect: string -> ComponentClaims, i: int, key: string)
    requires 0 <= i < |cs| && FiledUnder(cs[i], key)
    ensures key in Scan(state, cs, inspect)
  {
    var init := cs[..|cs| - 1];
    if i < |cs| - 1 {
      assert init[i] == cs[i];
      ScanAddsKey(state, init, inspect, i, key);
    }
  }

  /** The scan adds exactly the normalised paths of the local components. */
  lemma ScanKeys(state: map<string, Entry>, cs: seq<Component>, inspect: string -> ComponentClaims, key: string)
    ensures key in Scan(state, cs, inspect) <==> key in state || exists i :: 0 <= i < |cs| && FiledUnder(cs[i], key)
  {
    if key in Scan(state, cs, inspect) {
      ScanKeysFrom(state, cs, inspect, key);
    }
    if key in state {
      ScanKeepsKey(state, cs, inspect, key);
    } else if exists i :: 0 <= i < |cs| && FiledUnder(cs[i], key) {
      var i :| 0 <= i < |cs| && FiledUnder(cs[i], key);
      ScanAddsKey(state, cs, inspect, i, key);
    }
  }

  /**
   Last write wins: under a key, the scan keeps the last local component filed
   under it, paired with the claims inspected at its raw artifact path.
   */
  lemma {:induction false} ScanLastWins(state: map<string, Entry>, cs: seq<Component>, inspect: string -> ComponentClaims, i: nat)
    requires i < |cs| && IsLocalImage(cs[i].properties.Image())
    requires forall j :: i < j < |cs| ==> !FiledUnder(cs[j], NormalizedPath(cs[i].properties))
    ensures NormalizedPath(cs[i].properties) in Scan(state, cs, inspect)
    ensures Scan(state, cs, inspect)[NormalizedPath(cs[i].properties)]
         == (cs[i], inspect(RawArtifactPath(cs[i].properties.Image())))
  {
    var init := cs[..|cs| - 1];
    if i < |cs| - 1 {
      forall j | i < j < |init|
        ensures !FiledUnder(init[j], NormalizedPath(init[i].properties))
      {
        assert init[j] == cs[j];
      }
      ScanLastWins(state, init, inspect, i);
      assert init[i] == cs[i];
      assert !FiledUnder(cs[|cs| - 1], NormalizedPath(cs[i].properties));
    }
  }

  /** A key no local component is filed under keeps its entry. */
  lemma {:induction false} ScanFrame(state: map<string, Entry>, cs: seq<Component>, inspect: string -> ComponentClaims, key: string)
    requires key in state
    requires forall i :: 0 <= i < |cs| ==> !FiledUnder(cs[i], key)
    ensures key in Scan(state, cs, inspect) && Scan(state, cs, inspect)[key] == state[key]
  {
    if cs != [] {
      var init := cs[..|cs| - 1];
      forall i | 0 <= i < |init|
        ensures !FiledUnder(init[i], key)
      {
        assert init[i] == cs[i];
      }
      ScanFrame(state, init, inspect, key);
      assert !FiledUnder(cs[|cs| - 1], key);
    }
  }

  /** Only local components enter the state, each under its own normalised path. */
  lemma {:induction false} ScanOnlyLocal(cs: seq<Component>, inspect: string -> ComponentClaims, key: string)
    requires key in Scan(map[], cs, inspect)
    ensures var (c, claims) := Scan(map[], cs, inspect)[key];
      c in cs && FiledUnder(c, key) && claims == inspect(RawArtifactPath(c.properties.Image()))
  {
    var init := cs[..|cs| - 1];
    var last := cs[|cs| - 1];
    if !FiledUnder(last, key) {
      ScanOnlyLocal(init, inspect, key);
      var c := Scan(map[], init, inspect)[key].0;
      assert c in init;
      assert c in cs;
    }
  }

  /** The state stays empty exactly when no component of the manifest is local. */
  lemma ScanEmpty(cs: seq<Component>, inspect: string -> ComponentClaims)
    ensures Scan(map[], cs, inspect) == map[] <==> forall i :: 0 <= i < |cs| ==> !IsLocalImage(cs[i].properties.Image())
  {
    if exists i :: 0 <= i < |cs| && IsLocalImage(cs[i].properties.Image()) {
      var i :| 0 <= i < |cs| && IsLocalImage(cs[i].properties.Image());
      ScanKeys(map[], cs, inspect, NormalizedPath(cs[i].properties));
    } else if Scan(map[], cs, inspect) != map[] {
      var key :| key in Scan(map[], cs, inspect);
      ScanKeys(map[], cs, inspect, key);
    }
  }

  /**
   The scan does not compare the claims' kind with the component's kind: a
   local actor whose inspection yields provider claims is filed all the same.
   */
  lemma ScanKeepsMismatchedKinds(c: Component, inspect: string -> ComponentClaims)
    requires c.properties.ActorComponent? && IsLocalImage(c.properties.Image())
    requires inspect(RawArtifactPath(c.properties.Image())).Provider?
    ensures var state := Scan(map[], [c], inspect);
      NormalizedPath(c.properties) in state && !ActorPair(state[NormalizedPath(c.properties)])
  {
    assert [c][..0] == [];
  }

  /** `get_manifest_actors`: the actor components of the manifest, in manifest order. */
  function ManifestActors(components: seq<Component>): (actors: seq<Component>)
    ensures |actors| <= |components|
    ensures forall c :: c in actors <==> c in components && c.properties.ActorComponent?
    ensures forall c :: multiset(actors)[c] == if c.properties.ActorComponent? then multiset(components)[c] else 0
    ensures (forall c :: c in components ==> c.properties.ActorComponent?) ==> actors == components
  {
    if components == [] then []
    else
      var rest := ManifestActors(components[1..]);
      assert components == [components[0]] + components[1..];
      assert forall c :: c in components <==> c == components[0] || c in components[1..];
      assert multiset(components) == multiset([components[0]]) + multiset(components[1..]);
      if components[0].properties.ActorComponent? then [components[0]] + rest else rest
  }

  /** The filter keeps manifest order: filtering a concatenation concatenates the filtered parts. */
  lemma {:induction false} ManifestActorsAppend(a: seq<Component>, b: seq<Component>)
    ensures ManifestActors(a + b) == ManifestActors(a) + ManifestActors(b)
  {
    if a == [] {
      assert a + b == b;
    } else {
      assert (a + b)[1..] == a[1..] + b;
      ManifestActorsAppend(a[1..], b);
    }
  }

  // ---------------------------------------------------------------------------
  // Affected roots of one batch (`listen_for_changes_and_redeploy`)
  // ---------------------------------------------------------------------------

  /** `event.paths.iter().any(|p| p.starts_with(root))`. */
  function AnyStartsWith(paths: seq<string>, root: string): (b: bool)
    ensures b <==> exists p :: p in paths && StartsWith(p, root)
  {
    if paths == [] then false
    else StartsWith(paths[0], root) || AnyStartsWith(paths[1..], root)
  }

  /** The registered roots that some event of the batch falls under. */
  ghost function AffectedSet(registered: set<string>, events: seq<Event>): set<string>
  {
    set r | r in registered && exists e :: e in events && AnyStartsWith(e.paths, r)
  }

  // ---------------------------------------------------------------------------
  // Rebuild dispatch and initial build
  // ---------------------------------------------------------------------------

  /**
   The actions for one affected root: for a matching actor or provider pair,
   build, then stop the running instance only if the build succeeded;
   nothing for a mismatched pair.
   */
  function DispatchStep(path: string, e: Entry, built: bool): seq<Action>
  {
    match e.0.properties
    case ActorComponent(_) =>
      if e.1.Actor? then [BuildActor(path)] + (if built then [StopActor(e.1.actor.moduleId)] else [])
      else []
    case CapabilityComponent(_) =>
      if e.1.Provider? then
        [BuildProvider(path)] + (if built then [StopProvider(e.1.provider.service, e.1.provider.capabilityContractId)] else [])
      else []
  }

  /** The actions for the roots of `order`, dispatched in that order. */
  function DispatchAll(state: map<string, Entry>, order: seq<string>, succeeded: set<string>): seq<Action>
    requires forall p :: p in order ==> p in state
  {
    if order == [] then []
    else
      var last := order[|order| - 1];
      assert forall p :: p in order[..|order| - 1] ==> p in order;
      DispatchAll(state, order[..|order| - 1], succeeded) + DispatchStep(last, state[last], last in succeeded)
  }

  /** Dispatching one more root appends its step. */
  lemma DispatchAllSnoc(state: map<string, Entry>, order: seq<string>, path: string, succeeded: set<string>)
    requires forall p :: p in order ==> p in state
    requires path in state
    ensures forall p :: p in order + [path] ==> p in state
    ensures DispatchAll(state, order + [path], succeeded)
         == DispatchAll(state, order, succeeded) + DispatchStep(path, state[path], path in succeeded)
  {
    assert (order + [path])[..|order|] == order;
  }

  /** `initial_build` for one root: build a matching pair, whatever the outcome. */
  function InitialBuildStep(path: string, e: Entry): seq<Action>
  {
    match e.0.properties
    case ActorComponent(_) => if e.1.Actor? then [BuildActor(path)] else []
    case CapabilityComponent(_) => if e.1.Provider? then [BuildProvider(path)] else []
  }

  /** The builds of `initial_build` for the roots of `order`. */
  function InitialBuilds(state: map<string, Entry>, order: seq<string>): seq<Action>
    requires forall p :: p in order ==> p in state
  {
    if order == [] then []
    else
      var last := order[|order| - 1];
      assert forall p :: p in order[..|order| - 1] ==> p in order;
      InitialBuilds(state, order[..|order| - 1]) + InitialBuildStep(last, state[last])
  }

  /** Building one more root appends its step. */
  lemma InitialBuildsSnoc(state: map<string, Entry>, order: seq<string>, path: string)
    requires forall p :: p in order ==> p in state
    requires path in state
    ensures forall p :: p in order + [path] ==> p in state
    ensures InitialBuilds(state, order + [path]) == InitialBuilds(state, order) + InitialBuildStep(path, state[path])
  {
    assert (order + [path])[..|order|] == order;
  }

  /** A stop action and the action right before it: its successful build, of a root holding that instance. */
  predicate StopAfterBuild(build: Action, stop: Action, state: map<string, Entry>, succeeded: set<string>)
  {
    match stop
    case StopActor(id) =>
      && build.BuildActor? && build.path in state && build.path in succeeded
      && ActorPair(state[build.path]) && state[build.path].1.actor.moduleId == id
    case StopProvider(service, contract) =>
      && build.BuildProvider? && build.path in state && build.path in succeeded
      && ProviderPair(state[build.path])
      && state[build.path].1.provider.service == service
      && state[build.path].1.provider.capabilityContractId == contract
    case _ => false
  }

  predicate IsStop(a: Action)
  {
    a.StopActor? || a.StopProvider?
  }

  predicate IsBuild(a: Action)
  {
    a.BuildActor? || a.BuildProvider?
  }

  /** The action at `k`, if a stop, directly follows the successful build of the same component. */
  predicate StopAnswers(trace: seq<Action>, k: int, state: map<string, Entry>, succeeded: set<string>)
    requires 0 <= k < |trace|
  {
    IsStop(trace[k]) ==> 0 < k && StopAfterBuild(trace[k - 1], trace[k], state, succeeded)
  }

  /** The action at `k`, if a build, is directly followed by a stop exactly when it succeeded. */
  predicate BuildAnswered(trace: seq<Action>, k: int, succeeded: set<string>)
    requires 0 <= k < |trace|
  {
    IsBuild(trace[k]) ==> (trace[k].path in succeeded <==> k + 1 < |trace| && IsStop(trace[k + 1]))
  }

  /** Every stop in the trace directly follows the successful build of the same component. */
  ghost predicate StopsFollowSuccessfulBuilds(trace: seq<Action>, state: map<string, Entry>, succeeded: set<string>)
  {
    forall k :: 0 <= k < |trace| ==> StopAnswers(trace, k, state, succeeded)
  }

  /** A build in the trace is directly followed by a stop exactly when it succeeded. */
  ghost predicate SuccessfulBuildsStop(trace: seq<Action>, succeeded: set<string>)
  {
    forall k :: 0 <= k < |trace| ==> BuildAnswered(trace, k, succeeded)
  }

  /** The shape of one dispatch step: empty, a build, or a build and its stop. */
  lemma DispatchStepShape(path: string, e: Entry, ok: bool, state: map<string, Entry>, succeeded: set<string>)
    requires path in state && state[path] == e && (path in succeeded) == ok
    ensures var s := DispatchStep(path, e, ok);
      && |s| <= 2
      && (|s| > 0 <==> ActorPair(e) || ProviderPair(e))
      && (|s| > 0 ==> IsBuild(s[0]) && s[0].path == path)
      && StopsFollowSuccessfulBuilds(s, state, succeeded)
      && SuccessfulBuildsStop(s, succeeded)
  {
    var s := DispatchStep(path, e, ok);
    if ActorPair(e) || ProviderPair(e) {
      assert IsBuild(s[0]) && s[0].path == path;
      assert ok ==> |s| == 2 && IsStop(s[1]) && !IsBuild(s[1]);
      assert !ok ==> |s| == 1;
      assert BuildAnswered(s, 0, succeeded) && StopAnswers(s, 0, state, succeeded);
      if ok {
        assert BuildAnswered(s, 1, succeeded) && StopAnswers(s, 1, state, succeeded);
      }
    } else {
      assert s == [];
    }
  }

  /**
   In the dispatch trace of a batch, every stop directly follows the
   successful build of the same component, and a build is directly followed
   by a stop exactly when it succeeded: a failed build never stops anything.
   */
  lemma {:induction false} DispatchPairsBuildsAndStops(state: map<string, Entry>, order: seq<string>, succeeded: set<string>)
    requires forall p :: p in order ==> p in state
    ensures StopsFollowSuccessfulBuilds(DispatchAll(state, order, succeeded), state, succeeded)
    ensures SuccessfulBuildsStop(DispatchAll(state, order, succeeded), succeeded)
  {
    if order != [] {
      var init, last := order[..|order| - 1], order[|order| - 1];
      assert forall p :: p in init ==> p in order;
      var a := DispatchAll(state, init, succeeded);
      var s := DispatchStep(last, state[last], last in succeeded);
      DispatchPairsBuildsAndStops(state, init, succeeded);
      DispatchStepShape(last, state[last], last in succeeded, state, succeeded);
      var t := a + s;
      assert t == DispatchAll(state, order, succeeded);
      forall k | 0 <= k < |t|
        ensures StopAnswers(t, k, state, succeeded) && BuildAnswered(t, k, succeeded)
      {
        if k < |a| {
          assert StopAnswers(a, k, state, succeeded) && BuildAnswered(a, k, succeeded);
          assert t[k] == a[k];
          if 0 < k {
            assert t[k - 1] == a[k - 1];
          }
          if k + 1 < |a| {
            assert t[k + 1] == a[k + 1];
          } else if k + 1 < |t| {
            assert t[k + 1] == s[0] && !IsStop(s[0]);
          }
        } else {
          var j := k - |a|;
          assert StopAnswers(s, j, state, succeeded) && BuildAnswered(s, j, succeeded);
          assert t[k] == s[j];
          if 0 < j {
            assert t[k - 1] == s[j - 1];
          }
          if k + 1 < |t| {
            assert t[k + 1] == s[j + 1];
          }
        }
      }
    }
  }

  /** One dispatch step builds its own root once if it holds a matching pair, and nothing else. */
  lemma DispatchStepBuilds(path: string, e: Entry, ok: bool, p: string)
    ensures multiset(DispatchStep(path, e, ok))[BuildActor(p)] == if p == path && ActorPair(e) then 1 else 0
    ensures multiset(DispatchStep(path, e, ok))[BuildProvider(p)] == if p == path && ProviderPair(e) then 1 else 0
  {
    var s := DispatchStep(path, e, ok);
    if ActorPair(e) {
      assert s == [BuildActor(path)] || s == [BuildActor(path), StopActor(e.1.actor.moduleId)];
    } else if ProviderPair(e) {
      assert s == [BuildProvider(path)]
        || s == [BuildProvider(path), StopProvider(e.1.provider.service, e.1.provider.capabilityContractId)];
    } else {
      assert s == [];
    }
  }

  /**
   Each root of a batch is built once if it holds a matching actor or
   provider pair, and never otherwise.
   */
  lemma {:induction false} DispatchBuildsOnce(state: map<string, Entry>, order: seq<string>, succeeded: set<string>, p: string)
    requires Distinct(order) && forall q :: q in order ==> q in state
    ensures multiset(DispatchAll(state, order, succeeded))[BuildActor(p)]
         == if p in order && ActorPair(state[p]) then 1 else 0
    ensures multiset(DispatchAll(state, order, succeeded))[BuildProvider(p)]
         == if p in order && ProviderPair(state[p]) then 1 else 0
  {
    if order != [] {
      var init, last := order[..|order| - 1], order[|order| - 1];
      assert forall q :: q in init ==> q in order;
      assert Distinct(init);
      DispatchBuildsOnce(state, init, succeeded, p);
      assert p in order <==> p in init || p == last;
      var s := DispatchStep(last, state[last], last in succeeded);
      DispatchStepBuilds(last, state[last], last in succeeded, p);
      assert DispatchAll(state, order, succeeded) == DispatchAll(state, init, succeeded) + s;
    }
  }

  /**
   `initial_build` issues the builds the dispatcher would issue if every build
   failed: the same builds, and no stop.
   */
  lemma {:induction false} InitialBuildsAreDispatchWithoutStops(state: map<string, Entry>, order: seq<string>)
    requires forall p :: p in order ==> p in state
    ensures InitialBuilds(state, order) == DispatchAll(state, order, {})
  {
    if order != [] {
      var init := order[..|order| - 1];
      assert forall p :: p in init ==> p in order;
      InitialBuildsAreDispatchWithoutStops(state, init);
    }
  }

  /** `initial_build` issues nothing but builds. */
  lemma {:induction false} InitialBuildsOnlyBuild(state: map<string, Entry>, order: seq<string>)
    requires forall p :: p in order ==> p in state
    ensures forall k :: 0 <= k < |InitialBuilds(state, order)| ==> IsBuild(InitialBuilds(state, order)[k])
  {
    if order != [] {
      var init, last := order[..|order| - 1], order[|order| - 1];
      assert forall p :: p in init ==> p in order;
      InitialBuildsOnlyBuild(state, init);
      var a, s := InitialBuilds(state, init), InitialBuildStep(last, state[last]);
      assert InitialBuilds(state, order) == a + s;
      forall k | 0 <= k < |a + s|
        ensures IsBuild((a + s)[k])
      {
        if k < |a| {
          assert (a + s)[k] == a[k];
        } else {
          assert (a + s)[k] == s[k - |a|];
        }
      }
    }
  }

  /**
   `initial_build` over all roots builds each root holding a matching pair
   exactly once, and issues nothing but builds.
   */
  lemma InitialBuildOncePerMatchingEntry(state: map<string, Entry>, order: seq<string>, p: string)
    requires Enumerates(order, state.Keys)
    ensures multiset(InitialBuilds(state, order))[BuildActor(p)] == if p in state && ActorPair(state[p]) then 1 else 0
    ensures multiset(InitialBuilds(state, order))[BuildProvider(p)] == if p in state && ProviderPair(state[p]) then 1 else 0
    ensures forall k :: 0 <= k < |InitialBuilds(state, order)| ==> IsBuild(InitialBuilds(state, order)[k])
  {
    assert forall q :: q in order ==> q in state;
    InitialBuildsAreDispatchWithoutStops(state, order);
    DispatchBuildsOnce(state, order, {}, p);
    assert p in order <==> p in state;
    InitialBuildsOnlyBuild(state, order);
  }

  /** The trace of one received message: nothing for watch errors, a dispatch of the affected roots otherwise. */
  ghost predicate BatchTrace(state: map<string, Entry>, received: Received, trace: seq<Action>)
  {
    match received.result
    case Errors(_) => trace == []
    case Events(events) =>
      exists order :: Enumerates(order, AffectedSet(state.Keys, events))
        && (forall p :: p in order ==> p in state)
        && trace == DispatchAll(state, order, received.succeeded)
  }

  /** A dispatch over an enumeration of the affected set is the trace of that message. */
  lemma AffectedBatch(state: map<string, Entry>, received: Received, pathSet: set<string>, order: seq<string>, trace: seq<Action>)
    requires received.result.Events?
    requires forall r :: r in pathSet <==> r in state && exists e :: e in received.result.events && AnyStartsWith(e.paths, r)
    requires Enumerates(order, pathSet) && forall p :: p in order ==> p in state
    requires trace == DispatchAll(state, order, received.succeeded)
    ensures BatchTrace(state, received, trace)
  {
    assert pathSet == AffectedSet(state.Keys, received.result.events);
  }

  function Flatten(traces: seq<seq<Action>>): seq<Action>
  {
    if traces == [] then [] else Flatten(traces[..|traces| - 1]) + traces[|traces| - 1]
  }

  /** `DevCommand`; the hosts, inventory and arguments it also holds are not part of this model. */
  class DevCommand {
    const manifest: Manifest
    /** Local components by normalised source root. */
    var state: map<string, Entry>

    /** `DevCommand::new`: the state starts empty. */
    constructor (manifest: Manifest)
      ensures this.manifest == manifest && state == map[]
    {
      this.manifest := manifest;
      state := map[];
    }

    /** `setup_image_maping`: scans the manifest's components in order. */
    method SetupImageMapping(inspect: string -> ComponentClaims)
      modifies this
      ensures state == Scan(old(state), manifest.components, inspect)
    {
      var cs := manifest.components;
      for i := 0 to |cs|
        invariant state == Scan(old(state), cs[..i], inspect)
      {
        assert cs[..i + 1][..i] == cs[..i];
        state := ScanComponent(state, cs[i], inspect);
      }
      assert cs[..|cs|] == cs;
    }

    /**
     The set of registered roots that some event of the batch falls under,
     built as in the source by testing every event against every root.
     */
    method AffectedPaths(events: seq<Event>) returns (pathSet: set<string>)
      ensures forall r :: r in pathSet <==> r in state && exists e :: e in events && AnyStartsWith(e.paths, r)
    {
      pathSet := {};
      for i := 0 to |events|
        invariant forall r :: r in pathSet <==> r in state && exists e :: e in events[..i] && AnyStartsWith(e.paths, r)
      {
        var remaining := state.Keys;
        while remaining != {}
          invariant remaining <= state.Keys
          invariant forall r :: r in pathSet <==>
            (r in state && ((exists e :: e in events[..i] && AnyStartsWith(e.paths, r)) || (r !in remaining && AnyStartsWith(events[i].paths, r))))
          decreases remaining
        {
          var r :| r in remaining;
          if AnyStartsWith(events[i].paths, r) {
            pathSet := pathSet + {r};
          }
          remaining := remaining - {r};
        }
        assert forall e :: e in events[..i + 1] <==> e in events[..i] || e == events[i];
      }
      assert events[..|events|] == events;
    }

    /**
     Dispatch of one batch: the affected roots in the unspecified order of the
     set (`order`), each with the actions of `DispatchStep`.
     */
    method DispatchBatch(pathSet: set<string>, succeeded: set<string>) returns (trace: seq<Action>, ghost order: seq<string>)
      requires pathSet <= state.Keys
      ensures Enumerates(order, pathSet)
      ensures forall p :: p in order ==> p in state
      ensures trace == DispatchAll(state, order, succeeded)
      ensures forall p :: multiset(trace)[BuildActor(p)] == if p in pathSet && ActorPair(state[p]) then 1 else 0
      ensures forall p :: multiset(trace)[BuildProvider(p)] == if p in pathSet && ProviderPair(state[p]) then 1 else 0
      ensures StopsFollowSuccessfulBuilds(trace, state, succeeded) && SuccessfulBuildsStop(trace, succeeded)
    {
      trace, order := [], [];
      var remaining := pathSet;
      while remaining != {}
        invariant remaining <= pathSet
        invariant Distinct(order)
        invariant forall p :: p in order <==> p in pathSet && p !in remaining
        invariant trace == DispatchAll(state, order, succeeded)
        decreases remaining
      {
        var path :| path in remaining;
        ghost var previous := trace;
        var (component, claims) := state[path];
        match component.properties {
          case ActorComponent(_) =>
            if claims.Actor? {
              var id := claims.actor.moduleId;
              trace := trace + [BuildActor(path)];
              if path in succeeded {
                trace := trace + [StopActor(id)];
              }
            }
          case CapabilityComponent(_) =>
            if claims.Provider? {
              var id := claims.provider.service;
              var contractId := claims.provider.capabilityContractId;
              trace := trace + [BuildProvider(path)];
              if path in succeeded {
                trace := trace + [StopProvider(id, contractId)];
              }
            }
        }
        assert trace == previous + DispatchStep(path, state[path], path in succeeded);
        DispatchAllSnoc(state, order, path, succeeded);
        order := order + [path];
        remaining := remaining - {path};
      }
      forall p {
        DispatchBuildsOnce(state, order, succeeded, p);
      }
      DispatchPairsBuildsAndStops(state, order, succeeded);
    }

    /** `initial_build`: one synchronous build per matching root, outcomes ignored. */
    method InitialBuild() returns (trace: seq<Action>, ghost order: seq<string>)
      ensures Enumerates(order, state.Keys)
      ensures trace == InitialBuilds(state, order)
      ensures forall p :: multiset(trace)[BuildActor(p)] == if p in state && ActorPair(state[p]) then 1 else 0
      ensures forall p :: multiset(trace)[BuildProvider(p)] == if p in state && ProviderPair(state[p]) then 1 else 0
      ensures forall k :: 0 <= k < |trace| ==> IsBuild(trace[k])
    {
      trace, order := [], [];
      var remaining := state.Keys;
      while remaining != {}
        invariant remaining <= state.Keys
        invariant Distinct(order)
        invariant forall p :: p in order <==> p in state && p !in remaining
        invariant trace == InitialBuilds(state, order)
        decreases remaining
      {
        var path :| path in remaining;
        ghost var previous := trace;
        var (component, claims) := state[path];
        match component.properties {
          case ActorComponent(_) =>
            if claims.Actor? {
              trace := trace + [BuildActor(path)];
            }
          case CapabilityComponent(_) =>
            if claims.Provider? {
              trace := trace + [BuildProvider(path)];
            }
        }
        assert trace == previous + InitialBuildStep(path, state[path]);
        InitialBuildsSnoc(state, order, path);
        order := order + [path];
        remaining := remaining - {path};
      }
      forall p {
        InitialBuildOncePerMatchingEntry(state, order, p);
      }
    }

    /**
     One message of the watcher loop: watch errors are only printed; a batch
     of events has its affected roots dispatched.
     */
    method HandleMessage(received: Received) returns (trace: seq<Action>)
      ensures BatchTrace(state, received, trace)
    {
      match received.result {
        case Errors(_) =>
          trace := [];
        case Events(events) =>
          var pathSet := AffectedPaths(events);
          ghost var order;
          trace, order := DispatchBatch(pathSet, received.succeeded);
          AffectedBatch(state, received, pathSet, order, trace);
      }
    }

    /**
     `listen_for_changes_and_redeploy`, over a finite prefix `received` of the
     endless stream of watcher messages: each message contributes its batch
     trace, in order. Build failures never end the loop.
     */
    method ListenForChanges(received: seq<Received>) returns (trace: seq<Action>, ghost batches: seq<seq<Action>>)
      ensures |batches| == |received|
      ensures forall b :: 0 <= b < |received| ==> BatchTrace(state, received[b], batches[b])
      ensures trace == Flatten(batches)
    {
      trace, batches := [], [];
      for b := 0 to |received|
        invariant |batches| == b
        invariant forall c :: 0 <= c < b ==> BatchTrace(state, received[c], batches[c])
        invariant trace == Flatten(batches)
      {
        var t := HandleMessage(received[b]);
        trace := trace + t;
        ghost var before := batches;
        batches := batches + [t];
        assert batches[..b] == before;
      }
    }

    /**
     `simple`: scan; with no local component, fail with exit code 1 before any
     build or deployment; otherwise build every matching root, put and deploy
     the application, and handle each message received from the watcher.
     */
    method Simple(inspect: string -> ComponentClaims, received: seq<Received>)
      returns (trace: seq<Action>, exitCode: Option<int>, ghost initOrder: seq<string>, ghost batches: seq<seq<Action>>)
      modifies this
      ensures state == Scan(old(state), manifest.components, inspect)
      ensures state == map[] ==> exitCode == Some(1) && trace == []
      ensures state != map[] ==> exitCode == None
      ensures state != map[] ==>
        && Enumerates(initOrder, state.Keys)
        && |batches| == |received|
        && (forall b :: 0 <= b < |received| ==> BatchTrace(state, received[b], batches[b]))
        && trace == InitialBuilds(state, initOrder) + [PutApp, DeployApp] + Flatten(batches)
    {
      SetupImageMapping(inspect);
      if |state| == 0 {
        trace, exitCode, initOrder, batches := [], Some(1), [], [];
        return;
      }
      var initial, rebuilds;
      initial, initOrder := InitialBuild();
      rebuilds, batches := ListenForChanges(received);
      trace := initial + [PutApp, DeployApp] + rebuilds;
      exitCode := None;
    }
  }
}
