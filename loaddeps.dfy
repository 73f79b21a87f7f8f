/**
 * The resolver `_loadDeps` (injector.js 100-179), the placeholder written by
 * `_resolveFile` (241-274) and the handlers that run when a download settles
 * (116-121, 204-237). Downloads complete as separate events, in any order.
 */
module Resolver {
  import opened Wrappers
  import opened Names
  import opened State
  import opened Locator
  import opened Tree
  import opened Resolve
  import opened Binder
  import opened Define

  // ---------------------------------------------------------------------
  // What one resolver step may change
  // ---------------------------------------------------------------------

  /** Function objects are only added, `_metadata` objects keep their names, `binded` is never cleared. */
  predicate HeapGrows(w: World, w': World) {
    |w.heap| <= |w'.heap| && w'.heap[..|w.heap|] == w.heap &&
    |w'.metas| == |w.metas| &&
    forall m :: 0 <= m < |w.metas| ==>
      w'.metas[m].name == w.metas[m].name && (w.metas[m].binded ==> w'.metas[m].binded)
  }

  /** Known names stay, with their `deps` and placeholders; new names are placeholders. */
  predicate RegistryGrows(w: World, w': World) {
    (forall k :: k in w.reg ==> k in w'.reg && DepsOf(w'.reg[k]) == DepsOf(w.reg[k])) &&
    (forall k :: k in w'.reg && k !in w.reg ==> w'.reg[k] == Pending)
  }

  /**
   * Downloads are only appended, each for this request and for a name that
   * was unknown before; no two new downloads share a name, and every new
   * name has its download.
   */
  predicate FetchesAppended(w: World, w': World, root: Request) {
    |w.fetches| <= |w'.fetches| && w'.fetches[..|w.fetches|] == w.fetches &&
    (forall j :: |w.fetches| <= j < |w'.fetches| ==>
      w'.fetches[j].root == root && !w'.fetches[j].settled &&
      GetModuleName(w'.fetches[j].dep) !in w.reg && GetModuleName(w'.fetches[j].dep) in w'.reg) &&
    (forall j1, j2 :: |w.fetches| <= j1 < j2 < |w'.fetches| ==>
      GetModuleName(w'.fetches[j1].dep) != GetModuleName(w'.fetches[j2].dep)) &&
    (forall k :: k in w'.reg && k !in w.reg ==>
      exists j :: |w.fetches| <= j < |w'.fetches| && GetModuleName(w'.fetches[j].dep) == k)
  }

  predicate Progress(w: World, w': World, root: Request) {
    HeapGrows(w, w') && RegistryGrows(w, w') && FetchesAppended(w, w', root)
  }

  /**
   * What a request may go through: its value and rejections stay, `treeDeps`
   * only grows, `resolved` is never cleared, and the callback is invoked at
   * most once, only while `resolved` was false, which it then sets; `exec()`
   * is called only on the value the callback received.
   */
  predicate ReqStep(r: Req, r': Req) {
    r'.value == r.value && r'.rejections == r.rejections &&
    |r.tree| <= |r'.tree| && r'.tree[..|r.tree|] == r.tree &&
    (r.resolved ==> r'.resolved) &&
    ((r'.calls == r.calls && r'.executed == r.executed) ||
     (!r.resolved && r'.resolved && |r'.calls| == |r.calls| + 1 && r'.calls[..|r.calls|] == r.calls &&
      (r'.executed == r.executed || r'.executed == r.executed + [r'.calls[|r.calls|].exec])))
  }

  lemma ProgressRefl(w: World, root: Request)
    ensures Progress(w, w, root)
  {
    assert w.heap[..|w.heap|] == w.heap;
    assert w.fetches[..|w.fetches|] == w.fetches;
  }

  lemma ProgressTrans(w1: World, w2: World, w3: World, root: Request)
    requires Progress(w1, w2, root) && Progress(w2, w3, root)
    ensures Progress(w1, w3, root)
  {
    HeapGrowsTrans(w1, w2, w3);
    FetchesAppendedTrans(w1, w2, w3, root);
  }

  lemma HeapGrowsTrans(w1: World, w2: World, w3: World)
    requires HeapGrows(w1, w2) && HeapGrows(w2, w3)
    ensures HeapGrows(w1, w3)
  {
    assert w3.heap[..|w1.heap|] == w3.heap[..|w2.heap|][..|w1.heap|];
  }

  lemma FetchesAppendedTrans(w1: World, w2: World, w3: World, root: Request)
    requires RegistryGrows(w1, w2) && RegistryGrows(w2, w3)
    requires FetchesAppended(w1, w2, root) && FetchesAppended(w2, w3, root)
    ensures FetchesAppended(w1, w3, root)
  {
    assert w3.fetches[..|w1.fetches|] == w3.fetches[..|w2.fetches|][..|w1.fetches|];
    forall j | |w1.fetches| <= j < |w2.fetches|
      ensures w3.fetches[j] == w2.fetches[j]
    {
      assert w3.fetches[..|w2.fetches|][j] == w3.fetches[j];
    }
    forall k | k in w3.reg && k !in w1.reg
      ensures exists j :: |w1.fetches| <= j < |w3.fetches| && GetModuleName(w3.fetches[j].dep) == k
    {
      if k in w2.reg {
        var j :| |w1.fetches| <= j < |w2.fetches| && GetModuleName(w2.fetches[j].dep) == k;
        assert w3.fetches[j] == w2.fetches[j];
      } else {
        var j :| |w2.fetches| <= j < |w3.fetches| && GetModuleName(w3.fetches[j].dep) == k;
      }
    }
  }

  lemma ReqStepTrans(r1: Req, r2: Req, r3: Req)
    requires ReqStep(r1, r2) && ReqStep(r2, r3)
    ensures ReqStep(r1, r3)
  {
    assert r3.tree[..|r1.tree|] == r3.tree[..|r2.tree|][..|r1.tree|];
    if r2.calls != r1.calls || r2.executed != r1.executed {
      assert r3.calls == r2.calls && r3.executed == r2.executed;
    } else if r3.calls != r2.calls || r3.executed != r2.executed {
    }
  }

  lemma ReqStepRefl(r: Req)
    ensures ReqStep(r, r)
  {
    assert r.tree[..|r.tree|] == r.tree;
  }

  lemma GrowsIsProgress(w: World, w': World, root: Request)
    requires Grows(w, w')
    ensures Progress(w, w', root)
  {
    assert w'.fetches[..|w.fetches|] == w.fetches;
  }

  // ---------------------------------------------------------------------
  // _resolveFile and _loadDeps
  // ---------------------------------------------------------------------

  /**
   * `_resolveFile(dep)` up to the start of the download: the placeholder
   * `{pending: true}` is written under the module name before the download
   * begins, and the download is recorded with the locator it fetches.
   */
  function StartFetch(w: World, root: Request, dep: Descriptor): (w': World)
    ensures w'.reg == w.reg[GetModuleName(dep) := Pending]
    ensures w'.fetches == w.fetches + [Fetch(root, dep, WithDefaultExt(GetModuleUrl(dep)), false)]
    ensures w'.heap == w.heap && w'.metas == w.metas
    ensures WF(w) ==> WF(w')
  {
    w.(reg := w.reg[GetModuleName(dep) := Pending],
       fetches := w.fetches + [Fetch(root, dep, WithDefaultExt(GetModuleUrl(dep)), false)])
  }

  /** What every resolver step keeps: the heap only grows and the request keeps its value. */
  predicate Keeps(w: World, w': World, r: Req, r': Req) {
    |w.heap| <= |w'.heap| && r'.value == r.value
  }

  /** `_loadDeps(root, deps)`: push the locators, walk `deps`, then check and maybe deliver. */
  function Load(w: World, root: Request, r: Req, deps: seq<Descriptor>, fuel: nat): (out: (World, Req, Outcome))
    requires WF(w) && ValidValue(|w.heap|, r.value)
    ensures WF(out.0) && Keeps(w, out.0, r, out.1)
    decreases fuel, 0, 0
  {
    if fuel == 0 then (w, r, Threw(StackOverflow))
    else
      var r1 := if |deps| > 0 then r.(tree := r.tree + [UrlsOf(deps)]) else r;
      var (w2, r2, o) := Each(w, root, r1, deps, 0, fuel - 1);
      if o.Threw? then (w2, r2, o)
      else Settle(w2, r2, fuel)
  }

  /**
   * The `deps.forEach` of lines 107-123, from entry `i` on; a throw stops
   * it. `fuel` is what is left of the stack for each nested `_loadDeps`.
   */
  function Each(w: World, root: Request, r: Req, deps: seq<Descriptor>, i: nat, fuel: nat): (out: (World, Req, Outcome))
    requires WF(w) && ValidValue(|w.heap|, r.value) && i <= |deps|
    ensures WF(out.0) && Keeps(w, out.0, r, out.1)
    decreases fuel, 1, |deps| - i
  {
    if i == |deps| then (w, r, Ok)
    else
      var name := GetModuleName(deps[i]);
      if name in w.reg then
        match w.reg[name]
        case Pending => Each(w, root, r, deps, i + 1, fuel)
        case Defined(ds, _) =>
          var (w1, r1, o) := Load(w, root, r, ds, fuel);
          if o.Threw? then (w1, r1, o)
          else Each(w1, root, r1, deps, i + 1, fuel)
      else
        Each(StartFetch(w, root, deps[i]), root, r, deps, i + 1, fuel)
  }

  /**
   * One entry of the `forEach`: a placeholder is skipped, a defined record
   * has its `deps` loaded, an unknown name gets its placeholder and download.
   */
  function Visit(w: World, root: Request, r: Req, dep: Descriptor, fuel: nat): (out: (World, Req, Outcome))
    requires WF(w) && ValidValue(|w.heap|, r.value)
    ensures WF(out.0) && Keeps(w, out.0, r, out.1)
  {
    var name := GetModuleName(dep);
    if name in w.reg then
      match w.reg[name]
      case Pending => (w, r, Ok)
      case Defined(ds, _) => Load(w, root, r, ds, fuel)
    else
      (StartFetch(w, root, dep), r, Ok)
  }

  /** The walk visits entry `i`, stops if that throws, else goes on from `i + 1`. */
  lemma EachVisit(w: World, root: Request, r: Req, deps: seq<Descriptor>, i: nat, fuel: nat)
    requires WF(w) && ValidValue(|w.heap|, r.value) && i < |deps|
    ensures var v := Visit(w, root, r, deps[i], fuel);
      Each(w, root, r, deps, i, fuel) == if v.2.Threw? then v else Each(v.0, root, v.1, deps, i + 1, fuel)
  {
    var name := GetModuleName(deps[i]);
    if name !in w.reg {
      UnknownIsFetched(w, root, r, deps, i, fuel);
    } else if w.reg[name].Pending? {
      PendingIsSkipped(w, root, r, deps, i, fuel);
    } else {
      DefinedIsWalked(w, root, r, deps, i, fuel);
    }
  }

  /**
   * Lines 174-178: `root.deps` re-mapped through `_getModuleName`, then, if
   * `allResolved(root.deps)` and the request is not yet resolved, mark it
   * resolved and invoke the callback with `bind(root.deps, root.value)`.
   */
  function Settle(w: World, r: Req, fuel: nat): (out: (World, Req, Outcome))
    requires WF(w) && ValidValue(|w.heap|, r.value) && fuel > 0
    ensures WF(out.0) && Keeps(w, out.0, r, out.1)
    ensures out.1.deps == NormaliseAll(r.deps)
  {
    var names := NormaliseAll(r.deps);
    var r1 := r.(deps := names);
    match Resolved(w.reg, Some(names), fuel)
    case Exc(e) => (w, r1, Threw(e))
    case Val(ok) =>
      if !ok || r1.resolved then (w, r1, Ok)
      else
        var r2 := r1.(resolved := true);
        var (w3, b) := Bind(w, names, r.value, fuel);
        match b
        case Exc(e) => (w3, r2, Threw(e))
        case Val(exec) =>
          var (r3, o) := Callback(r2, exec);
          (w3, r3, o)
  }

  /**
   * Every `_loadDeps` run only adds placeholders and downloads for
   * this request, keeps every known record's `deps`, and delivers at most
   * once, only while the request was unresolved.
   */
  lemma {:induction false} LoadProgress(w: World, root: Request, r: Req, deps: seq<Descriptor>, fuel: nat)
    requires WF(w) && ValidValue(|w.heap|, r.value)
    ensures var out := Load(w, root, r, deps, fuel); Progress(w, out.0, root) && ReqStep(r, out.1)
    decreases fuel, 0, 0
  {
    if fuel == 0 {
      ProgressRefl(w, root);
      ReqStepRefl(r);
    } else {
      var r1 := if |deps| > 0 then r.(tree := r.tree + [UrlsOf(deps)]) else r;
      assert ReqStep(r, r1) by { assert r1.tree[..|r.tree|] == r.tree; }
      var inner := fuel - 1;
      EachProgress(w, root, r1, deps, 0, inner);
      LoadAfterEach(w, root, r, r1, deps, fuel);
    }
  }

  /** The walk's progress carries over to the whole `_loadDeps` run. */
  lemma LoadAfterEach(w: World, root: Request, r: Req, r1: Req, deps: seq<Descriptor>, fuel: nat)
    requires WF(w) && ValidValue(|w.heap|, r.value) && fuel > 0
    requires r1 == if |deps| > 0 then r.(tree := r.tree + [UrlsOf(deps)]) else r
    requires ReqStep(r, r1)
    requires var out := Each(w, root, r1, deps, 0, fuel - 1); Progress(w, out.0, root) && ReqStep(r1, out.1)
    ensures var out := Load(w, root, r, deps, fuel); Progress(w, out.0, root) && ReqStep(r, out.1)
  {
    var inner := fuel - 1;
    var (w2, r2, o) := Each(w, root, r1, deps, 0, inner);
    ReqStepTrans(r, r1, r2);
    if o.Threw? {
      assert Load(w, root, r, deps, fuel) == (w2, r2, o);
    } else {
      assert Load(w, root, r, deps, fuel) == Settle(w2, r2, fuel);
      SettleAfterProgress(w, w2, root, r, r2, fuel);
    }
  }

  /** A delivery after a walk keeps the walk's progress. */
  lemma SettleAfterProgress(w: World, w2: World, root: Request, r: Req, r2: Req, fuel: nat)
    requires WF(w2) && ValidValue(|w2.heap|, r2.value) && fuel > 0
    requires Progress(w, w2, root) && ReqStep(r, r2)
    ensures var out := Settle(w2, r2, fuel); Progress(w, out.0, root) && ReqStep(r, out.1)
  {
    var (w3, r3, _) := Settle(w2, r2, fuel);
    SettleProgress(w2, r2, fuel);
    GrowsIsProgress(w2, w3, root);
    ProgressTrans(w, w2, w3, root);
    ReqStepTrans(r, r2, r3);
  }

  lemma {:induction false} EachProgress(w: World, root: Request, r: Req, deps: seq<Descriptor>, i: nat, fuel: nat)
    requires WF(w) && ValidValue(|w.heap|, r.value) && i <= |deps|
    ensures var out := Each(w, root, r, deps, i, fuel); Progress(w, out.0, root) && ReqStep(r, out.1)
    decreases fuel, 1, |deps| - i, 1
  {
    if i == |deps| {
      ProgressRefl(w, root);
      ReqStepRefl(r);
    } else {
      var name := GetModuleName(deps[i]);
      if name !in w.reg {
        EachFetchProgress(w, root, r, deps, i, fuel);
      } else if w.reg[name].Pending? {
        EachProgress(w, root, r, deps, i + 1, fuel);
      } else {
        EachLoadProgress(w, root, r, deps, i, fuel);
      }
    }
  }

  /** The walk enters a defined record's `deps`, then goes on. */
  lemma {:induction false} EachLoadProgress(w: World, root: Request, r: Req, deps: seq<Descriptor>, i: nat, fuel: nat)
    requires WF(w) && ValidValue(|w.heap|, r.value) && i < |deps|
    requires GetModuleName(deps[i]) in w.reg && w.reg[GetModuleName(deps[i])].Defined?
    ensures var out := Each(w, root, r, deps, i, fuel); Progress(w, out.0, root) && ReqStep(r, out.1)
    decreases fuel, 1, |deps| - i, 0
  {
    var ds := w.reg[GetModuleName(deps[i])].deps;
    var (w1, r1, o) := Load(w, root, r, ds, fuel);
    LoadProgress(w, root, r, ds, fuel);
    if o.Ok? {
      var (w2, r2, _) := Each(w1, root, r1, deps, i + 1, fuel);
      EachProgress(w1, root, r1, deps, i + 1, fuel);
      ProgressTrans(w, w1, w2, root);
      ReqStepTrans(r, r1, r2);
    }
  }

  /** The walk starts a download for an unknown name, then goes on. */
  lemma {:induction false} EachFetchProgress(w: World, root: Request, r: Req, deps: seq<Descriptor>, i: nat, fuel: nat)
    requires WF(w) && ValidValue(|w.heap|, r.value) && i < |deps|
    requires GetModuleName(deps[i]) !in w.reg
    ensures var out := Each(w, root, r, deps, i, fuel); Progress(w, out.0, root) && ReqStep(r, out.1)
    decreases fuel, 1, |deps| - i, 0
  {
    var w1 := StartFetch(w, root, deps[i]);
    StartFetchProgress(w, root, deps[i]);
    var out := Each(w1, root, r, deps, i + 1, fuel);
    UnknownIsFetched(w, root, r, deps, i, fuel);
    assert Each(w, root, r, deps, i, fuel) == out;
    EachProgress(w1, root, r, deps, i + 1, fuel);
    ProgressTrans(w, w1, out.0, root);
  }

  lemma StartFetchProgress(w: World, root: Request, dep: Descriptor)
    requires GetModuleName(dep) !in w.reg
    ensures Progress(w, StartFetch(w, root, dep), root)
  {
    var w1 := StartFetch(w, root, dep);
    assert w1.heap[..|w.heap|] == w.heap;
    assert w1.fetches[..|w.fetches|] == w.fetches;
    assert w1.fetches[|w.fetches|].dep == dep;
  }

  lemma SettleProgress(w: World, r: Req, fuel: nat)
    requires WF(w) && ValidValue(|w.heap|, r.value) && fuel > 0
    ensures var out := Settle(w, r, fuel); Grows(w, out.0) && ReqStep(r, out.1)
  {
    var names := NormaliseAll(r.deps);
    var r1 := r.(deps := names);
    assert ReqStep(r, r1) by { assert r1.tree[..|r.tree|] == r.tree; }
    match Resolved(w.reg, Some(names), fuel)
    case Exc(e) => GrowsRefl(w);
    case Val(ok) =>
      if !ok || r1.resolved {
        GrowsRefl(w);
      } else {
        var r2 := r1.(resolved := true);
        assert ReqStep(r, r2) by { assert r2.tree[..|r.tree|] == r.tree; }
        BindGrows(w, names, r.value, fuel);
        var b := Bind(w, names, r.value, fuel).1;
        if b.Val? {
          var r3 := Callback(r2, b.v).0;
          assert r3.tree[..|r.tree|] == r.tree;
        }
      }
  }

  /**
   * `root.callback(exec, treeDeps)` as `require` builds it (lines 81-86):
   * the call is recorded, the tree is reduced (throwing when empty), then
   * `exec()` is called, throwing when it is not a function.
   */
  function Callback(r: Req, exec: Value): (out: (Req, Outcome))
    requires r.resolved
    ensures out.0.calls == r.calls + [Call(r.deps, exec)]
    ensures out.1.Ok? <==> r.tree != [] && exec.Fn?
    ensures out.0.executed == if out.1.Ok? then r.executed + [exec] else r.executed
    ensures out.0.(calls := r.calls, executed := r.executed) == r
  {
    var r1 := r.(calls := r.calls + [Call(r.deps, exec)]);
    match Flatten(r1.tree)
    case None =>
      FlattenIsLatestFirst(r1.tree);
      (r1, Threw(EmptyReduce))
    case Some(_) =>
      FlattenIsLatestFirst(r1.tree);
      if !exec.Fn? then (r1, Threw(CallNonFunction))
      else (r1.(executed := r1.executed + [exec]), Ok)
  }

  // ---------------------------------------------------------------------
  // Download outcomes
  // ---------------------------------------------------------------------

  function MarkSettled(w: World, k: nat): (w': World)
    requires k < |w.fetches|
    ensures w'.reg == w.reg && w'.heap == w.heap && w'.metas == w.metas && |w'.fetches| == |w.fetches|
    ensures w'.fetches[k] == w.fetches[k].(settled := true)
    ensures forall j :: 0 <= j < |w.fetches| && j != k ==> w'.fetches[j] == w.fetches[j]
  {
    w.(fetches := w.fetches[k := w.fetches[k].(settled := true)])
  }

  /** The strategy a download uses. */
  function StrategyOfFetch(f: Fetch): Strategy
  {
    StrategyOf(GetModuleUrl(f.dep))
  }

  /**
   * A download fails. A script's error handler rejects with
   * `{name: _getModuleName(file)}`; the handler of line 118 deletes exactly
   * that record and calls `root.reject`. When the extension regex gave null
   * the rejection is the TypeError itself, whose `name` is "TypeError". A
   * text download's error handler throws a ReferenceError (`e` is
   * undefined) before rejecting, so nothing happens.
   */
  function FetchFailed(w: World, r: Req, k: nat): (out: (World, Req))
    requires k < |w.fetches| && !w.fetches[k].settled
    requires StrategyOfFetch(w.fetches[k]) != NeverSettles
    ensures WF(w) ==> WF(out.0)
    ensures out.0.heap == w.heap && out.0.metas == w.metas && |out.0.fetches| == |w.fetches| && out.0.fetches[k].settled
    ensures out.0.reg.Keys <= w.reg.Keys && forall n :: n in out.0.reg ==> out.0.reg[n] == w.reg[n]
  {
    var f := w.fetches[k];
    var w1 := MarkSettled(w, k);
    match StrategyOfFetch(f)
    case Script =>
      var name := GetModuleName(f.dep);
      (Delete(w1, name), r.(rejections := r.rejections + [name]))
    case ExtTypeError =>
      (Delete(w1, "TypeError"), r.(rejections := r.rejections + ["TypeError"]))
    case Text => (w1, r)
  }

  /** `delete injector._dependencies[name]`. */
  function Delete(w: World, name: string): (w': World)
    ensures WF(w) ==> WF(w')
    ensures w'.heap == w.heap && w'.metas == w.metas && w'.fetches == w.fetches
    ensures w'.reg.Keys == w.reg.Keys - {name} && forall n :: n in w'.reg ==> w'.reg[n] == w.reg[n]
  {
    w.(reg := w.reg - {name})
  }

  /**
   * A script has loaded (its own `define` calls, if any, have already run).
   * For a `{name: url}` descriptor the load handler first defines the global
   * of that name; then the promise resolves with the record, and the handler
   * of line 117 resolves that record's `deps`. A missing record or a
   * placeholder makes that handler throw.
   */
  function ScriptLoaded(w: World, root: Request, r: Req, k: nat, global: Value, fuel: nat): (out: (World, Req, Outcome))
    requires WF(w) && ValidValue(|w.heap|, r.value) && ValidValue(|w.heap|, global)
    requires k < |w.fetches| && !w.fetches[k].settled && StrategyOfFetch(w.fetches[k]) == Script
    ensures WF(out.0) && Keeps(w, out.0, r, out.1)
  {
    var f := w.fetches[k];
    var w1 := MarkSettled(w, k);
    var name := GetModuleName(f.dep);
    var (w2, d) := if f.dep.Pair? then DefineIn(w1, [Str(name), global], "") else (w1, Val(name));
    if d.Exc? then (w2, r, Threw(d.error))
    else if name !in w2.reg || w2.reg[name].Pending? then (w2, r, Threw(UndefinedModule))
    else Load(w2, root, r, w2.reg[name].deps, fuel)
  }

  /** The value `define(file, ...)` sees as its first argument: a pair is an object. */
  function DescriptorValue(d: Descriptor): Value
  {
    match d
    case Name(s) => Str(s)
    case Pair(_, _) => Obj(0)
  }

  /**
   * A text download has loaded: `define(file, response)` with the raw
   * descriptor as the name, then the record under that raw name is resolved.
   */
  function TextLoaded(w: World, root: Request, r: Req, k: nat, text: string, fuel: nat): (out: (World, Req, Outcome))
    requires WF(w) && ValidValue(|w.heap|, r.value)
    requires k < |w.fetches| && !w.fetches[k].settled && StrategyOfFetch(w.fetches[k]) == Text
    ensures WF(out.0) && Keeps(w, out.0, r, out.1)
  {
    var f := w.fetches[k];
    var w1 := MarkSettled(w, k);
    var (w2, d) := DefineIn(w1, [DescriptorValue(f.dep), Str(text)], "");
    match d
    case Exc(e) => (w2, r, Threw(e))
    case Val(name) => Load(w2, root, r, w2.reg[name].deps, fuel)
  }

  // ---------------------------------------------------------------------
  // Properties
  // ---------------------------------------------------------------------

  /** A name whose record is a placeholder is neither walked into nor fetched again. */
  lemma PendingIsSkipped(w: World, root: Request, r: Req, deps: seq<Descriptor>, i: nat, fuel: nat)
    requires WF(w) && ValidValue(|w.heap|, r.value) && i < |deps|
    requires GetModuleName(deps[i]) in w.reg && w.reg[GetModuleName(deps[i])] == Pending
    ensures Each(w, root, r, deps, i, fuel) == Each(w, root, r, deps, i + 1, fuel)
  {
  }

  /** A defined name has its record's `deps` walked first; a throw there stops the walk. */
  lemma DefinedIsWalked(w: World, root: Request, r: Req, deps: seq<Descriptor>, i: nat, fuel: nat)
    requires WF(w) && ValidValue(|w.heap|, r.value) && i < |deps|
    requires GetModuleName(deps[i]) in w.reg && w.reg[GetModuleName(deps[i])].Defined?
    ensures var out := Load(w, root, r, w.reg[GetModuleName(deps[i])].deps, fuel);
      Each(w, root, r, deps, i, fuel) ==
        if out.2.Threw? then out else Each(out.0, root, out.1, deps, i + 1, fuel)
  {
  }

  /** An unknown name gets its placeholder and one download, before the walk goes on. */
  lemma UnknownIsFetched(w: World, root: Request, r: Req, deps: seq<Descriptor>, i: nat, fuel: nat)
    requires WF(w) && ValidValue(|w.heap|, r.value) && i < |deps|
    requires GetModuleName(deps[i]) !in w.reg
    ensures Each(w, root, r, deps, i, fuel) == Each(StartFetch(w, root, deps[i]), root, r, deps, i + 1, fuel)
  {
  }

  /**
   * A module already known when a request starts is never downloaded for
   * it: concurrent requests share one download per name.
   */
  lemma KnownIsNotRefetched(w: World, root: Request, r: Req, deps: seq<Descriptor>, fuel: nat, name: string)
    requires WF(w) && ValidValue(|w.heap|, r.value) && name in w.reg
    ensures var w' := Load(w, root, r, deps, fuel).0;
      forall j :: |w.fetches| <= j < |w'.fetches| ==> GetModuleName(w'.fetches[j].dep) != name
  {
    LoadProgress(w, root, r, deps, fuel);
  }

  /**
   * The callback is invoked only when `allResolved` holds on the re-mapped
   * names and the request was not yet resolved, and it receives those very
   * names' binding; the dependency lookups of `bind` then all succeed.
   */
  lemma SettleDeliversOnlyWhenResolved(w: World, r: Req, fuel: nat)
    requires WF(w) && ValidValue(|w.heap|, r.value) && fuel > 0
    ensures var out := Settle(w, r, fuel);
      out.2 != Threw(UndefinedDependency) &&
      (out.1.calls != r.calls ==>
        !r.resolved && Resolved(w.reg, Some(NormaliseAll(r.deps)), fuel) == Val(true) &&
        out.1.calls == r.calls + [Call(NormaliseAll(r.deps), out.1.calls[|r.calls|].exec)])
  {
    var names := NormaliseAll(r.deps);
    if Resolved(w.reg, Some(names), fuel) == Val(true) {
      ResolvedBindsWithoutMissingDependency(w, names, r.value, fuel, fuel);
    }
  }

  /** A resolved request is never delivered again, however the walk goes. */
  lemma ResolvedRequestStaysQuiet(w: World, root: Request, r: Req, deps: seq<Descriptor>, fuel: nat)
    requires WF(w) && ValidValue(|w.heap|, r.value) && r.resolved
    ensures var out := Load(w, root, r, deps, fuel); out.1.calls == r.calls && out.1.resolved
  {
    LoadProgress(w, root, r, deps, fuel);
  }

  /**
   * A failed script download deletes exactly its module's record (even if
   * it had been defined meanwhile) and rejects the request with that name;
   * no other key and no other request field changes.
   */
  lemma ScriptFailureDeletesOnlyItsRecord(w: World, r: Req, k: nat)
    requires k < |w.fetches| && !w.fetches[k].settled && StrategyOfFetch(w.fetches[k]) == Script
    ensures var name := GetModuleName(w.fetches[k].dep);
      var out := FetchFailed(w, r, k);
      name !in out.0.reg &&
      (forall n :: n in w.reg && n != name ==> n in out.0.reg && out.0.reg[n] == w.reg[n]) &&
      out.0.reg.Keys == w.reg.Keys - {name} &&
      out.1 == r.(rejections := r.rejections + [name])
  {
  }

  /** A failed text download only marks the download settled: its error handler throws first. */
  lemma TextFailureIsSilent(w: World, r: Req, k: nat)
    requires k < |w.fetches| && !w.fetches[k].settled && StrategyOfFetch(w.fetches[k]) == Text
    ensures FetchFailed(w, r, k) == (MarkSettled(w, k), r)
    ensures FetchFailed(w, r, k).0.fetches[k].settled
  {
  }

  /**
   * A loaded script for a plain name that did not define its module leaves
   * the placeholder, and the resolve handler throws on its missing `deps`;
   * one that did define it has that record's `deps` walked for the request.
   */
  lemma ScriptLoadCases(w: World, root: Request, r: Req, k: nat, global: Value, fuel: nat)
    requires WF(w) && ValidValue(|w.heap|, r.value) && ValidValue(|w.heap|, global)
    requires k < |w.fetches| && !w.fetches[k].settled && StrategyOfFetch(w.fetches[k]) == Script
    requires w.fetches[k].dep.Name?
    ensures var name := GetModuleName(w.fetches[k].dep);
      (name !in w.reg || w.reg[name] == Pending) ==>
        ScriptLoaded(w, root, r, k, global, fuel) == (MarkSettled(w, k), r, Threw(UndefinedModule))
    ensures var name := GetModuleName(w.fetches[k].dep);
      name in w.reg && w.reg[name].Defined? ==>
        ScriptLoaded(w, root, r, k, global, fuel) == Load(MarkSettled(w, k), root, r, w.reg[name].deps, fuel)
  {
  }

  /**
   * A failed download never delivers: the request keeps its fields, its
   * callback invocations and its `exec()` calls, and gains at most one
   * rejection.
   */
  lemma FetchFailureKeepsDelivery(w: World, r: Req, k: nat)
    requires k < |w.fetches| && !w.fetches[k].settled
    requires StrategyOfFetch(w.fetches[k]) != NeverSettles
    ensures var r' := FetchFailed(w, r, k).1;
      r'.calls == r.calls && r'.executed == r.executed && r'.resolved == r.resolved &&
      r'.value == r.value && r'.deps == r.deps && r'.tree == r.tree &&
      |r.rejections| <= |r'.rejections| <= |r.rejections| + 1 && r'.rejections[..|r.rejections|] == r.rejections
  {
    var r' := FetchFailed(w, r, k).1;
    assert r'.rejections[..|r.rejections|] == r.rejections;
  }

  /** After a failure, a later reference to the same name takes the download branch again. */
  lemma RetryAfterFailure(w: World, r: Req, k: nat, root: Request, r2: Req, deps: seq<Descriptor>, i: nat, fuel: nat)
    requires WF(w) && ValidValue(|w.heap|, r2.value)
    requires k < |w.fetches| && !w.fetches[k].settled && StrategyOfFetch(w.fetches[k]) == Script
    requires i < |deps| && GetModuleName(deps[i]) == GetModuleName(w.fetches[k].dep)
    ensures var w' := FetchFailed(w, r, k).0;
      WF(w') && Each(w', root, r2, deps, i, fuel) == Each(StartFetch(w', root, deps[i]), root, r2, deps, i + 1, fuel)
  {
  }

  /**
   * A text download for a bare name `s` registers under `s` itself, while
   * its placeholder stays under `_getModuleName(s)` = "/" + s: requiring
   * it without a leading `/` leaves a placeholder that never resolves.
   */
  lemma TextLoadKeepsPlaceholder(w: World, root: Request, r: Req, k: nat, text: string, fuel: nat)
    requires WF(w) && ValidValue(|w.heap|, r.value)
    requires k < |w.fetches| && !w.fetches[k].settled && StrategyOfFetch(w.fetches[k]) == Text
    requires w.fetches[k].dep.Name? && GetModuleName(w.fetches[k].dep) in w.reg
    requires GetModuleName(w.fetches[k].dep) != w.fetches[k].dep.s
    requires w.reg[GetModuleName(w.fetches[k].dep)] == Pending
    ensures var out := TextLoaded(w, root, r, k, text, fuel);
      var s := w.fetches[k].dep.s;
      s in out.0.reg && DepsOf(out.0.reg[s]) == Some([]) &&
      GetModuleName(w.fetches[k].dep) in out.0.reg && out.0.reg[GetModuleName(w.fetches[k].dep)] == Pending
  {
    var f := w.fetches[k];
    var s := f.dep.s;
    var pn := GetModuleName(f.dep);
    var w1 := MarkSettled(w, k);
    ClassifyForms(NamedValue(s, Str(text)), "");
    assert [DescriptorValue(f.dep), Str(text)] == ArgsOf(NamedValue(s, Str(text)));
    var w2 := DefineIn(w1, [DescriptorValue(f.dep), Str(text)], "").0;
    TextLoadedDefines(w, root, r, k, text, fuel, s);
    LoadProgress(w2, root, r, [], fuel);
  }

  /**
   * The handler of line 117 goes through `_loadDeps`, so a loaded script is
   * a request step: at most one delivery, and only while unresolved.
   */
  lemma ScriptLoadedStep(w: World, root: Request, r: Req, k: nat, global: Value, fuel: nat)
    requires WF(w) && ValidValue(|w.heap|, r.value) && ValidValue(|w.heap|, global)
    requires k < |w.fetches| && !w.fetches[k].settled && StrategyOfFetch(w.fetches[k]) == Script
    ensures ReqStep(r, ScriptLoaded(w, root, r, k, global, fuel).1)
  {
    var f := w.fetches[k];
    var w1 := MarkSettled(w, k);
    var name := GetModuleName(f.dep);
    var (w2, d) := if f.dep.Pair? then DefineIn(w1, [Str(name), global], "") else (w1, Val(name));
    if d.Exc? || name !in w2.reg || w2.reg[name].Pending? {
      ReqStepRefl(r);
    } else {
      LoadProgress(w2, root, r, w2.reg[name].deps, fuel);
    }
  }

  /** A loaded text download is a request step too. */
  lemma TextLoadedStep(w: World, root: Request, r: Req, k: nat, text: string, fuel: nat)
    requires WF(w) && ValidValue(|w.heap|, r.value)
    requires k < |w.fetches| && !w.fetches[k].settled && StrategyOfFetch(w.fetches[k]) == Text
    ensures ReqStep(r, TextLoaded(w, root, r, k, text, fuel).1)
  {
    var f := w.fetches[k];
    var w1 := MarkSettled(w, k);
    var (w2, d) := DefineIn(w1, [DescriptorValue(f.dep), Str(text)], "");
    match d
    case Exc(e) => ReqStepRefl(r);
    case Val(name) => LoadProgress(w2, root, r, w2.reg[name].deps, fuel);
  }

  /**
   * For a `{name: url}` script the load handler first runs
   * `define(name, global[name])`: a global that is not a function, object or
   * string (or is null) throws at the `_metadata` write, and the request
   * stays as it was; otherwise the global is registered under the key with
   * no deps, and the resolve handler runs `_loadDeps` over those empty deps.
   */
  lemma PairScriptLoadCases(w: World, root: Request, r: Req, k: nat, global: Value, fuel: nat)
    requires WF(w) && ValidValue(|w.heap|, r.value) && ValidValue(|w.heap|, global)
    requires k < |w.fetches| && !w.fetches[k].settled && StrategyOfFetch(w.fetches[k]) == Script
    requires w.fetches[k].dep.Pair?
    ensures !(FunctionObjectOrString(global) && !global.Null?) ==>
      ScriptLoaded(w, root, r, k, global, fuel) == (MarkSettled(w, k), r, Threw(NullishMetadata))
    ensures var key := w.fetches[k].dep.key;
      var w2 := DefineIn(MarkSettled(w, k), [Str(key), global], "").0;
      FunctionObjectOrString(global) && !global.Null? ==>
        key in w2.reg && w2.reg[key] == Defined([], global) &&
        ScriptLoaded(w, root, r, k, global, fuel) == Load(w2, root, r, [], fuel)
  {
    var key := w.fetches[k].dep.key;
    if FunctionObjectOrString(global) && !global.Null? {
      ClassifyForms(NamedValue(key, global), "");
      assert [Str(key), global] == ArgsOf(NamedValue(key, global));
    } else {
      ClassifyThrows([Str(key), global], "");
    }
  }

  /** A text download whose `define` registered `name` resolves that record's `deps`. */
  lemma TextLoadedDefines(w: World, root: Request, r: Req, k: nat, text: string, fuel: nat, name: string)
    requires WF(w) && ValidValue(|w.heap|, r.value)
    requires k < |w.fetches| && !w.fetches[k].settled && StrategyOfFetch(w.fetches[k]) == Text
    requires DefineIn(MarkSettled(w, k), [DescriptorValue(w.fetches[k].dep), Str(text)], "").1 == Val(name)
    ensures var w2 := DefineIn(MarkSettled(w, k), [DescriptorValue(w.fetches[k].dep), Str(text)], "").0;
      name in w2.reg && w2.reg[name].Defined? &&
      TextLoaded(w, root, r, k, text, fuel) == Load(w2, root, r, w2.reg[name].deps, fuel)
  {
  }

  // ---------------------------------------------------------------------
  // A request over a sequence of download outcomes
  // ---------------------------------------------------------------------

  /**
   * What matters about delivery across events: the value stays, `resolved`
   * is never cleared, and either no callback invocation and no `exec()` call
   * is added, or exactly one invocation is, while the request was unresolved.
   */
  predicate AtMostOnce(r: Req, r': Req) {
    r'.value == r.value && (r.resolved ==> r'.resolved) &&
    ((r'.calls == r.calls && r'.executed == r.executed) ||
     (!r.resolved && r'.resolved && |r'.calls| == |r.calls| + 1 && r'.calls[..|r.calls|] == r.calls &&
      |r.executed| <= |r'.executed| <= |r.executed| + 1))
  }

  lemma ReqStepIsAtMostOnce(r: Req, r': Req)
    requires ReqStep(r, r')
    ensures AtMostOnce(r, r')
  {
  }

  lemma AtMostOnceTrans(r1: Req, r2: Req, r3: Req)
    requires AtMostOnce(r1, r2) && AtMostOnce(r2, r3)
    ensures AtMostOnce(r1, r3)
  {
    if r2.calls != r1.calls || r2.executed != r1.executed {
      assert r3.calls == r2.calls && r3.executed == r2.executed;
    }
  }

  /** The outcome of download `k`: it failed, a script ran (with the pair's global), or a text arrived. */
  datatype Event = Failed(k: nat) | ScriptDone(k: nat, global: Value) | TextDone(k: nat, text: string)

  /**
   * One event for `root`: the handler of its own, unsettled download `k`.
   * An event of another request, of a settled download, of a strategy whose
   * handler does not exist or with a global not on the heap changes nothing.
   */
  function Handle(w: World, root: Request, r: Req, e: Event, fuel: nat): (out: (World, Req))
    requires WF(w) && ValidValue(|w.heap|, r.value)
    ensures WF(out.0) && ValidValue(|out.0.heap|, out.1.value)
  {
    if e.k >= |w.fetches| || w.fetches[e.k].settled || w.fetches[e.k].root != root then (w, r)
    else
      var s := StrategyOfFetch(w.fetches[e.k]);
      match e
      case Failed(k) =>
        if s == NeverSettles then (w, r) else FetchFailed(w, r, k)
      case ScriptDone(k, g) =>
        if s != Script || !ValidValue(|w.heap|, g) then (w, r)
        else var out := ScriptLoaded(w, root, r, k, g, fuel); (out.0, out.1)
      case TextDone(k, t) =>
        if s != Text then (w, r)
        else var out := TextLoaded(w, root, r, k, t, fuel); (out.0, out.1)
  }

  /** The events in order. */
  function Run(w: World, root: Request, r: Req, events: seq<Event>, fuel: nat): (out: (World, Req))
    requires WF(w) && ValidValue(|w.heap|, r.value)
    ensures WF(out.0) && ValidValue(|out.0.heap|, out.1.value)
    decreases |events|
  {
    if events == [] then (w, r)
    else
      var (w1, r1) := Handle(w, root, r, events[0], fuel);
      Run(w1, root, r1, events[1..], fuel)
  }

  lemma HandleIsAtMostOnce(w: World, root: Request, r: Req, e: Event, fuel: nat)
    requires WF(w) && ValidValue(|w.heap|, r.value)
    ensures AtMostOnce(r, Handle(w, root, r, e, fuel).1)
  {
    if e.k >= |w.fetches| || w.fetches[e.k].settled || w.fetches[e.k].root != root {
    } else {
      var s := StrategyOfFetch(w.fetches[e.k]);
      match e
      case Failed(k) =>
        if s != NeverSettles { FetchFailureKeepsDelivery(w, r, k); }
      case ScriptDone(k, g) =>
        if s == Script && ValidValue(|w.heap|, g) {
          ScriptLoadedStep(w, root, r, k, g, fuel);
          ReqStepIsAtMostOnce(r, ScriptLoaded(w, root, r, k, g, fuel).1);
        }
      case TextDone(k, t) =>
        if s == Text {
          TextLoadedStep(w, root, r, k, t, fuel);
          ReqStepIsAtMostOnce(r, TextLoaded(w, root, r, k, t, fuel).1);
        }
    }
  }

  /**
   * However the downloads of a request settle, and in whatever order, its
   * callback is invoked at most once, only if it was unresolved, and
   * `exec()` is called at most once.
   */
  lemma {:induction false} RunDeliversAtMostOnce(w: World, root: Request, r: Req, events: seq<Event>, fuel: nat)
    requires WF(w) && ValidValue(|w.heap|, r.value)
    ensures AtMostOnce(r, Run(w, root, r, events, fuel).1)
    decreases |events|
  {
    if events != [] {
      var (w1, r1) := Handle(w, root, r, events[0], fuel);
      HandleIsAtMostOnce(w, root, r, events[0], fuel);
      RunDeliversAtMostOnce(w1, root, r1, events[1..], fuel);
      AtMostOnceTrans(r, r1, Run(w1, root, r1, events[1..], fuel).1);
    }
  }

  /**
   * `require(deps, value)` followed by any sequence of download outcomes
   * invokes the callback at most once and calls `exec()` at most once.
   */
  lemma RequireDeliversAtMostOnce(w: World, root: Request, deps: seq<Descriptor>, value: Value, events: seq<Event>, fuel: nat)
    requires WF(w) && ValidValue(|w.heap|, value)
    ensures var (w1, r1, _) := Load(w, root, Req(deps, value, false, [], [], [], []), deps, fuel);
      var r' := Run(w1, root, r1, events, fuel).1;
      |r'.calls| <= 1 && |r'.executed| <= 1 && (r'.calls != [] ==> r'.resolved)
  {
    var r0 := Req(deps, value, false, [], [], [], []);
    var (w1, r1, _) := Load(w, root, r0, deps, fuel);
    LoadProgress(w, root, r0, deps, fuel);
    ReqStepIsAtMostOnce(r0, r1);
    RunDeliversAtMostOnce(w1, root, r1, events, fuel);
    AtMostOnceTrans(r0, r1, Run(w1, root, r1, events, fuel).1);
  }
}
