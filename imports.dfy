/** Import resolution for one core module and its dependency modules
    (`instantiate_wasm`). Modules, namespaces, exports and the bridge
    function tables are abstract values; each declared import is resolved by
    the first source that provides it, and dependency modules are
    instantiated on demand and memoized by their id. */
module ImportGraph {
  import opened Wrappers
  import WasmConfig

  type ModuleId = nat

  datatype Import = Import(ns: string, name: string)

  datatype ModuleKind = CoreModule | ComponentModule

  /** What the engine knows of a compiled module: its kind, its declared
      imports in order, the names it exports and the modules its import
      namespaces are bound to. */
  datatype ModuleData = ModuleData(
    kind: ModuleKind,
    imports: seq<Import>,
    exports: set<string>,
    deps: map<string, ModuleId>)

  /** An entry of the host dictionary: a usable extern, or one whose
      conversion fails with a message. */
  datatype HostEntry = HostOk | HostBroken(msg: string)

  /** Everything resolution consults besides the configuration. The two
      namespace strings are the bridge module names, and the three sets are
      what each bridge table and the WASI linker provide. `modules` holds
      the data of every initialized module. */
  datatype Env = Env(
    host: Option<map<Import, HostEntry>>,
    registryNs: string,
    externrefNs: string,
    registryFuncs: set<string>,
    externrefFuncs: set<string>,
    wasiFuncs: set<Import>,
    modules: map<ModuleId, ModuleData>)

  /** The extern bound to one import. */
  datatype Extern =
    | HostExtern(imp: Import)
    | RegistryFunc(name: string)
    | ExternrefFunc(name: string)
    | WasiFunc(imp: Import)
    | DepExport(dep: ModuleId, name: string)

  /** An instantiated core module: what it is, what it exports and the
      externs that satisfied its imports, in declaration order. */
  datatype Instance = Instance(of: ModuleId, exports: set<string>, imports: seq<Extern>)

  datatype LinkError =
    | CannotInstantiateComponent
    | UninitializedModule(id: ModuleId)
    | HostError(msg: string)
    | UnknownImport(ns: string, name: string)

  /** The first source that claims an import. */
  datatype Source =
    | FromHost
    | HostFailed(msg: string)
    | FromRegistry
    | FromExternref
    | FromWasi
    | FromDep(dep: ModuleId)
    | Unresolved

  /** What each source would provide on its own, before the order is applied. */
  predicate HostHas(env: Env, imp: Import) {
    env.host.Some? && imp in env.host.value
  }

  predicate RegistryTakes(env: Env, config: WasmConfig.Config, imp: Import) {
    config.externBind == WasmConfig.Registry && imp.ns == env.registryNs && imp.name in env.registryFuncs
  }

  predicate ExternrefTakes(env: Env, config: WasmConfig.Config, imp: Import) {
    config.externBind == WasmConfig.Native && imp.ns == env.externrefNs && imp.name in env.externrefFuncs
  }

  predicate WasiTakes(env: Env, config: WasmConfig.Config, imp: Import) {
    config.withWasi && imp in env.wasiFuncs
  }

  /** The fixed order of `instantiate_wasm`: the host table, then a bridge
      namespace when the configured binding selects it, then the WASI
      linker, then the module bound to the namespace. Each source is chosen
      exactly when it provides the import and no earlier source does. */
  function SourceOf(env: Env, config: WasmConfig.Config, deps: map<string, ModuleId>, imp: Import): (s: Source)
    ensures HostHas(env, imp) <==> s.FromHost? || s.HostFailed?
    ensures s.FromHost? <==> HostHas(env, imp) && env.host.value[imp] == HostOk
    ensures s.HostFailed? <==> HostHas(env, imp) && env.host.value[imp].HostBroken?
    ensures s.HostFailed? ==> env.host.value[imp] == HostBroken(s.msg)
    ensures s.FromRegistry? <==> !HostHas(env, imp) && RegistryTakes(env, config, imp)
    ensures s.FromExternref? <==>
              !HostHas(env, imp) && !RegistryTakes(env, config, imp) && ExternrefTakes(env, config, imp)
    ensures s.FromWasi? <==>
              !HostHas(env, imp) && !RegistryTakes(env, config, imp) && !ExternrefTakes(env, config, imp)
              && WasiTakes(env, config, imp)
    ensures s.FromDep? <==>
              !HostHas(env, imp) && !RegistryTakes(env, config, imp) && !ExternrefTakes(env, config, imp)
              && !WasiTakes(env, config, imp) && imp.ns in deps
    ensures s.FromDep? ==> s.dep == deps[imp.ns]
    ensures s.Unresolved? <==>
              !HostHas(env, imp) && !RegistryTakes(env, config, imp) && !ExternrefTakes(env, config, imp)
              && !WasiTakes(env, config, imp) && imp.ns !in deps
  {
    if env.host.Some? && imp in env.host.value then
      match env.host.value[imp]
      case HostOk => FromHost
      case HostBroken(m) => HostFailed(m)
    else if imp.ns == env.registryNs && config.externBind == WasmConfig.Registry
            && imp.name in env.registryFuncs then FromRegistry
    else if imp.ns == env.externrefNs && config.externBind == WasmConfig.Native
            && imp.name in env.externrefFuncs then FromExternref
    else if config.withWasi && imp in env.wasiFuncs then FromWasi
    else if imp.ns in deps then FromDep(deps[imp.ns])
    else Unresolved
  }

  /** With no bridge configured, no import ever binds to a bridge table,
      whatever namespace it names. */
  lemma NoBindingNoBridge(env: Env, config: WasmConfig.Config, deps: map<string, ModuleId>, imp: Import)
    requires config.externBind == WasmConfig.NoBinding
    ensures !SourceOf(env, config, deps, imp).FromRegistry?
    ensures !SourceOf(env, config, deps, imp).FromExternref?
  {
  }

  /** A host entry shadows every other source, including a dependency
      module bound to the same namespace. */
  lemma HostShadowsAll(env: Env, config: WasmConfig.Config, deps: map<string, ModuleId>, imp: Import)
    requires env.host.Some? && imp in env.host.value && env.host.value[imp] == HostOk
    ensures SourceOf(env, config, deps, imp) == FromHost
  {
  }

  /** Every module a namespace points to is strictly lower in `rank`: the
      dependency graph is acyclic. */
  ghost predicate RankedAcyclic(env: Env, rank: map<ModuleId, nat>) {
    forall id :: id in env.modules ==>
      id in rank &&
      forall ns :: ns in env.modules[id].deps ==>
        env.modules[id].deps[ns] in rank && rank[env.modules[id].deps[ns]] < rank[id]
  }

  /** The instance a module yields, or the first error, defined without a
      memo table: the reference semantics of resolution. */
  ghost function Outcome(env: Env, config: WasmConfig.Config, rank: map<ModuleId, nat>, id: ModuleId): (r: Result<Instance, LinkError>)
    requires RankedAcyclic(env, rank) && id in rank
    ensures r.Ok? ==> id in env.modules && r.value.of == id &&
                      r.value.exports == env.modules[id].exports &&
                      |r.value.imports| == |env.modules[id].imports|
    decreases rank[id], 3, 0
  {
    if id !in env.modules then Err(UninitializedModule(id))
    else
      var m := env.modules[id];
      if m.kind == ComponentModule then Err(CannotInstantiateComponent)
      else
        match ResolveImports(env, config, rank, id, m.imports)
        case Err(e) => Err(e)
        case Ok(es) => Ok(Instance(id, m.exports, es))
  }

  /** Whether one import of module `owner` resolves. */
  ghost predicate ImportOk(env: Env, config: WasmConfig.Config, rank: map<ModuleId, nat>, owner: ModuleId, imp: Import)
    requires RankedAcyclic(env, rank) && owner in env.modules
    decreases rank[owner], 0, 0
  {
    match SourceOf(env, config, env.modules[owner].deps, imp)
    case HostFailed(_) => false
    case Unresolved => false
    case FromDep(d) =>
      var o := Outcome(env, config, rank, d);
      o.Ok? && imp.name in o.value.exports
    case _ => true
  }

  /** The extern an import binds to once it resolves. */
  function ExternFor(src: Source, imp: Import): Extern {
    match src
    case FromRegistry => RegistryFunc(imp.name)
    case FromExternref => ExternrefFunc(imp.name)
    case FromWasi => WasiFunc(imp)
    case FromDep(d) => DepExport(d, imp.name)
    case _ => HostExtern(imp)
  }

  /** The error an import that does not resolve raises: the host's own
      error, the dependency's error, or "Unknown import". */
  ghost function ErrorFor(env: Env, config: WasmConfig.Config, rank: map<ModuleId, nat>, owner: ModuleId, imp: Import): LinkError
    requires RankedAcyclic(env, rank) && owner in env.modules
    decreases rank[owner], 0, 0
  {
    match SourceOf(env, config, env.modules[owner].deps, imp)
    case HostFailed(msg) => HostError(msg)
    case FromDep(d) =>
      var o := Outcome(env, config, rank, d);
      if o.Err? then o.error else UnknownImport(imp.ns, imp.name)
    case _ => UnknownImport(imp.ns, imp.name)
  }

  /** Imports are resolved in declaration order: the externs of all of them
      when every one resolves, otherwise the error of the first that does not. */
  ghost function ResolveImports(env: Env, config: WasmConfig.Config, rank: map<ModuleId, nat>, owner: ModuleId, imps: seq<Import>): (r: Result<seq<Extern>, LinkError>)
    requires RankedAcyclic(env, rank) && owner in env.modules
    ensures r.Ok? <==> forall k :: 0 <= k < |imps| ==> ImportOk(env, config, rank, owner, imps[k])
    ensures r.Ok? ==>
              |r.value| == |imps| &&
              forall k :: 0 <= k < |imps| ==>
                r.value[k] == ExternFor(SourceOf(env, config, env.modules[owner].deps, imps[k]), imps[k])
    ensures r.Err? ==> exists k :: FirstFailure(env, config, rank, owner, imps, k) &&
                                   r.error == ErrorFor(env, config, rank, owner, imps[k])
    decreases rank[owner], 2, |imps|
  {
    if imps == [] then Ok([])
    else if !ImportOk(env, config, rank, owner, imps[0]) then
      assert FirstFailure(env, config, rank, owner, imps, 0);
      Err(ErrorFor(env, config, rank, owner, imps[0]))
    else
      match ResolveImports(env, config, rank, owner, imps[1..])
      case Err(e) =>
        ghost var k :| FirstFailure(env, config, rank, owner, imps[1..], k) &&
                       e == ErrorFor(env, config, rank, owner, imps[1..][k]);
        assert FirstFailure(env, config, rank, owner, imps, k + 1);
        Err(e)
      case Ok(es) =>
        var x := ExternFor(SourceOf(env, config, env.modules[owner].deps, imps[0]), imps[0]);
        assert forall k :: 0 <= k < |imps| ==> ImportOk(env, config, rank, owner, imps[k]) by {
          forall k | 0 <= k < |imps| ensures ImportOk(env, config, rank, owner, imps[k]) {
            if k > 0 { assert imps[k] == imps[1..][k - 1]; }
          }
        }
        Ok([x] + es)
  }

  /** `k` is the first import that does not resolve. */
  ghost predicate FirstFailure(env: Env, config: WasmConfig.Config, rank: map<ModuleId, nat>, owner: ModuleId, imps: seq<Import>, k: int)
    requires RankedAcyclic(env, rank) && owner in env.modules
    decreases rank[owner], 1, 0
  {
    0 <= k < |imps| && !ImportOk(env, config, rank, owner, imps[k]) &&
    forall k' :: 0 <= k' < k ==> ImportOk(env, config, rank, owner, imps[k'])
  }

  lemma FirstFailureUnique(env: Env, config: WasmConfig.Config, rank: map<ModuleId, nat>, owner: ModuleId, imps: seq<Import>, j: int, k: int)
    requires RankedAcyclic(env, rank) && owner in env.modules
    requires FirstFailure(env, config, rank, owner, imps, j) && FirstFailure(env, config, rank, owner, imps, k)
    ensures j == k
  {
  }

  /** A memo table agrees with the reference semantics. */
  ghost predicate MemoValid(env: Env, config: WasmConfig.Config, rank: map<ModuleId, nat>, insts: map<ModuleId, Instance>)
    requires RankedAcyclic(env, rank)
  {
    forall d :: d in insts ==> d in rank && Outcome(env, config, rank, d) == Ok(insts[d])
  }

  /** The bookkeeping one call leaves behind: every module it
      instantiated is listed once in `made`, was not memoized before, ranks
      no higher than `bound`, and (unless it is `root`) is memoized after. */
  ghost predicate Bookkeeping(env: Env, config: WasmConfig.Config, rank: map<ModuleId, nat>,
                              insts: map<ModuleId, Instance>, insts': map<ModuleId, Instance>,
                              made: seq<ModuleId>, root: int, bound: nat)
    requires RankedAcyclic(env, rank)
  {
    MemoValid(env, config, rank, insts') &&
    (forall d :: d in insts ==> d in insts' && insts'[d] == insts[d]) &&
    (forall d :: d in insts' && d !in insts ==> d in made && d != root) &&
    (forall j, k :: 0 <= j < k < |made| ==> made[j] != made[k]) &&
    (forall j :: 0 <= j < |made| ==> made[j] !in insts && made[j] in rank && rank[made[j]] <= bound) &&
    (forall j :: 0 <= j < |made| && made[j] != root ==> made[j] in insts')
  }

  /** `instantiate_wasm(id, insts)`. The result is the reference outcome,
      whatever the memo table already held; only newly instantiated
      dependencies are added to the table. The ghost `created` lists every
      module instantiated by this call: no module appears twice and none was
      already memoized, so each is instantiated at most once. */
  method InstantiateWasm(env: Env, config: WasmConfig.Config, ghost rank: map<ModuleId, nat>,
                         id: ModuleId, insts: map<ModuleId, Instance>)
    returns (r: Result<Instance, LinkError>, insts': map<ModuleId, Instance>, ghost created: seq<ModuleId>)
    requires RankedAcyclic(env, rank) && id in rank
    requires MemoValid(env, config, rank, insts)
    requires id !in insts
    ensures r == Outcome(env, config, rank, id)
    ensures Bookkeeping(env, config, rank, insts, insts', created, id, rank[id])
    ensures r.Ok? <==> id in created
    decreases rank[id], 1
  {
    insts', created := insts, [];
    if id !in env.modules {
      return Err(UninitializedModule(id)), insts', created;
    }
    var m := env.modules[id];
    if m.kind == ComponentModule {
      return Err(CannotInstantiateComponent), insts', created;
    }
    var imports: seq<Extern> := [];
    var j := 0;
    while j < |m.imports|
      invariant 0 <= j <= |m.imports|
      invariant Bookkeeping(env, config, rank, insts, insts', created, id, rank[id])
      invariant forall a :: 0 <= a < |created| ==> created[a] != id
      invariant forall k :: 0 <= k < j ==> ImportOk(env, config, rank, id, m.imports[k])
      invariant |imports| == j
      invariant forall k :: 0 <= k < j ==>
                  imports[k] == ExternFor(SourceOf(env, config, m.deps, m.imports[k]), m.imports[k])
    {
      var x, next, made := ResolveImport(env, config, rank, id, m.imports[j], insts');
      ComposeBookkeeping(env, config, rank, insts, insts', next, created, made, id);
      insts', created := next, created + made;
      if x.Err? {
        FirstFailureIsOutcome(env, config, rank, id, j);
        return Err(x.error), insts', created;
      }
      imports := imports + [x.value];
      j := j + 1;
    }
    AllResolvedIsOutcome(env, config, rank, id, imports);
    r := Ok(Instance(id, m.exports, imports));
    RootBookkeeping(env, config, rank, insts, insts', created, id);
    created := created + [id];
  }

  /** A dependency step's bookkeeping extends the caller's. */
  lemma ComposeBookkeeping(env: Env, config: WasmConfig.Config, rank: map<ModuleId, nat>,
                           insts: map<ModuleId, Instance>, mid: map<ModuleId, Instance>,
                           next: map<ModuleId, Instance>, created: seq<ModuleId>, made: seq<ModuleId>,
                           id: ModuleId)
    requires RankedAcyclic(env, rank) && id in rank
    requires Bookkeeping(env, config, rank, insts, mid, created, id, rank[id])
    requires forall a :: 0 <= a < |created| ==> created[a] != id
    requires Bookkeeping(env, config, rank, mid, next, made, -1, rank[id])
    requires forall a :: 0 <= a < |made| ==> rank[made[a]] < rank[id]
    ensures Bookkeeping(env, config, rank, insts, next, created + made, id, rank[id])
    ensures forall a :: 0 <= a < |created + made| ==> (created + made)[a] != id
  {
    var all := created + made;
    forall a, b | 0 <= a < b < |all| ensures all[a] != all[b] {
      if b >= |created| && a < |created| {
        assert all[a] in mid;
        assert all[b] == made[b - |created|];
      }
    }
    forall a | 0 <= a < |all| ensures all[a] !in insts {
      if a >= |created| {
        assert all[a] == made[a - |created|];
      }
    }
  }

  /** Appending the root after its imports resolved keeps the bookkeeping. */
  lemma RootBookkeeping(env: Env, config: WasmConfig.Config, rank: map<ModuleId, nat>,
                        insts: map<ModuleId, Instance>, insts': map<ModuleId, Instance>,
                        created: seq<ModuleId>, id: ModuleId)
    requires RankedAcyclic(env, rank) && id in rank && id !in insts
    requires Bookkeeping(env, config, rank, insts, insts', created, id, rank[id])
    requires forall a :: 0 <= a < |created| ==> created[a] != id
    ensures Bookkeeping(env, config, rank, insts, insts', created + [id], id, rank[id])
    ensures id in created + [id]
  {
    var all := created + [id];
    forall a | 0 <= a < |all| ensures all[a] !in insts && all[a] in rank && rank[all[a]] <= rank[id] {
      if a < |created| { assert all[a] == created[a]; }
    }
  }

  /** The import the loop stops at is the one the reference semantics fails on. */
  lemma FirstFailureIsOutcome(env: Env, config: WasmConfig.Config, rank: map<ModuleId, nat>, id: ModuleId, j: nat)
    requires RankedAcyclic(env, rank) && id in env.modules
    requires env.modules[id].kind == CoreModule
    requires FirstFailure(env, config, rank, id, env.modules[id].imports, j)
    ensures Outcome(env, config, rank, id) == Err(ErrorFor(env, config, rank, id, env.modules[id].imports[j]))
  {
    var imps := env.modules[id].imports;
    var e := ResolveImports(env, config, rank, id, imps);
    var k :| FirstFailure(env, config, rank, id, imps, k) &&
             e.error == ErrorFor(env, config, rank, id, imps[k]);
    FirstFailureUnique(env, config, rank, id, imps, j, k);
  }

  /** A loop that resolved every import built the reference instance. */
  lemma AllResolvedIsOutcome(env: Env, config: WasmConfig.Config, rank: map<ModuleId, nat>, id: ModuleId, es: seq<Extern>)
    requires RankedAcyclic(env, rank) && id in env.modules
    requires env.modules[id].kind == CoreModule
    requires forall k :: 0 <= k < |env.modules[id].imports| ==> ImportOk(env, config, rank, id, env.modules[id].imports[k])
    requires |es| == |env.modules[id].imports|
    requires forall k :: 0 <= k < |es| ==>
               es[k] == ExternFor(SourceOf(env, config, env.modules[id].deps, env.modules[id].imports[k]), env.modules[id].imports[k])
    ensures Outcome(env, config, rank, id) == Ok(Instance(id, env.modules[id].exports, es))
  {
    var r := ResolveImports(env, config, rank, id, env.modules[id].imports);
    assert r.value == es;
  }

  /** One pass of the import loop for module `owner`: the sources are tried
      in order, and a dependency module not yet memoized is instantiated and
      recorded before its export is looked up. */
  method ResolveImport(env: Env, config: WasmConfig.Config, ghost rank: map<ModuleId, nat>,
                       owner: ModuleId, imp: Import, insts: map<ModuleId, Instance>)
    returns (x: Result<Extern, LinkError>, insts': map<ModuleId, Instance>, ghost made: seq<ModuleId>)
    requires RankedAcyclic(env, rank) && owner in env.modules
    requires MemoValid(env, config, rank, insts)
    ensures x.Ok? <==> ImportOk(env, config, rank, owner, imp)
    ensures x.Ok? ==> x.value == ExternFor(SourceOf(env, config, env.modules[owner].deps, imp), imp)
    ensures x.Err? ==> x.error == ErrorFor(env, config, rank, owner, imp)
    ensures Bookkeeping(env, config, rank, insts, insts', made, -1, rank[owner])
    ensures forall j :: 0 <= j < |made| ==> rank[made[j]] < rank[owner]
    decreases rank[owner], 0
  {
    insts', made := insts, [];
    var src := SourceOf(env, config, env.modules[owner].deps, imp);
    match src {
      case HostFailed(msg) =>
        return Err(HostError(msg)), insts', made;
      case Unresolved =>
        return Err(UnknownImport(imp.ns, imp.name)), insts', made;
      case FromDep(d) =>
        if d !in insts {
          var t, sub, subMade := InstantiateWasm(env, config, rank, d, insts);
          made := subMade;
          if t.Err? {
            return Err(t.error), sub, made;
          }
          insts' := sub[d := t.value];
        }
        if imp.name !in insts'[d].exports {
          return Err(UnknownImport(imp.ns, imp.name)), insts', made;
        }
        return Ok(DepExport(d, imp.name)), insts', made;
      case _ =>
        return Ok(ExternFor(src, imp)), insts', made;
    }
  }
}
