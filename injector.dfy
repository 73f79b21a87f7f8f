/**
 * The injector object itself: the registry `injector._dependencies` and the
 * JavaScript heap it reaches, updated in place by `define`, by `_loadDeps`
 * through `_resolveFile` and `bind`, and by the download handlers. Each method
 * is proved to do exactly what the specification function of the same
 * operation computes.
 */
module Runtime {
  import opened Wrappers
  import opened Names
  import opened State
  import opened Tree
  import opened Locator
  import opened Resolve
  import opened Binder
  import opened Define
  import opened Resolver

  class Injector {
    var registry: map<string, Record>
    var heap: seq<FnObj>
    var metas: seq<Meta>
    var fetches: seq<Fetch>

    function Snapshot(): World
      reads this
    {
      World(registry, heap, metas, fetches)
    }

    predicate Valid()
      reads this
    {
      WF(Snapshot())
    }

    /**
     * Lines 18-306: the function `injector` gets its own properties
     * `_dependencies` (the registry object), `define` and `require` (two
     * function objects, at heap indices 1 and 2), then registers itself,
     * `define(injector)`, under the name of the script it runs from. A later
     * `bind` of the injector module copies these properties onto the bound
     * function.
     */
    constructor (path: string, code: nat, defineCode: nat, requireCode: nat)
      ensures Valid()
      ensures registry == map[AnonymousName(path) := Defined([], Fn(0))]
      ensures heap == [FnObj(Source(code), Some(0), OwnProperties()),
                       FnObj(Source(defineCode), None, map[]),
                       FnObj(Source(requireCode), None, map[])]
      ensures metas == [Meta(AnonymousName(path), false)] && fetches == []
    {
      registry := map[];
      heap := [FnObj(Source(code), None, OwnProperties()),
               FnObj(Source(defineCode), None, map[]),
               FnObj(Source(requireCode), None, map[])];
      metas := [];
      fetches := [];
      new;
      ClassifyForms(AnonFactory(0), path);
      var _ := Define([Fn(0)], path);
    }

    /** The enumerable own properties of `injector` (lines 22, 30 and 71). */
    static function OwnProperties(): map<string, Value>
    {
      map["_dependencies" := Obj(1), "define" := Fn(1), "require" := Fn(2)]
    }

    /** A function expression evaluated by a user's script (not part of the injector). */
    method NewFunction(code: nat, statics: map<string, Value>) returns (v: Value)
      requires Valid()
      modifies this
      ensures Valid() && v == Fn(|old(heap)|)
      ensures heap == old(heap) + [FnObj(Source(code), None, statics)]
      ensures registry == old(registry) && metas == old(metas) && fetches == old(fetches)
    {
      v := Fn(|heap|);
      heap := heap + [FnObj(Source(code), None, statics)];
    }

    /** `injector.define(...)` (lines 30-67). */
    method Define(args: seq<Value>, path: string) returns (r: Res<string>)
      requires Valid() && forall j :: 0 <= j < |args| ==> ValidValue(|heap|, args[j])
      requires |args| >= 3 ==> args[0].Str? && args[1].Arr?
      modifies this
      ensures (Snapshot(), r) == DefineIn(old(Snapshot()), args, path)
    {
      match Classify(args, path)
      case Exc(e) =>
        r := Exc(e);
      case Val(d) =>
        if d.value.Fn? {
          heap := heap[d.value.ref := heap[d.value.ref].(meta := Some(|metas|))];
          metas := metas + [Meta(d.name, false)];
        }
        registry := registry[d.name := Defined(d.deps, d.value)];
        r := Val(d.name);
    }

    /** `allResolved(deps)` (lines 125-138); it only reads. */
    method AllResolved(deps: Option<seq<Descriptor>>, fuel: nat) returns (r: Res<bool>)
      ensures r == Resolved(registry, deps, fuel)
      decreases fuel
    {
      if fuel == 0 { return Exc(StackOverflow); }
      if deps.None? { return Val(false); }
      var s := deps.value;
      var couldResolve := true;
      var i := 0;
      while couldResolve && i < |s|
        invariant 0 <= i <= |s|
        invariant ResolvedFrom(registry, s, 0, fuel) ==
          if couldResolve then ResolvedFrom(registry, s, i, fuel) else Val(false)
        decreases |s| - i
      {
        var dep := s[i];
        if RawKey(dep) in registry {
          var sub := AllResolved(DepsOf(registry[RawKey(dep)]), fuel - 1);
          if sub.Exc? { return sub; }
          couldResolve := sub.v;
        } else {
          couldResolve := false;
        }
        i := i + 1;
      }
      return Val(couldResolve);
    }

    /** `bind(args, value)` (lines 141-172). */
    method Bind(args: seq<Descriptor>, value: Value, fuel: nat) returns (r: Res<Value>)
      requires Valid() && ValidValue(|heap|, value)
      modifies this
      ensures (Snapshot(), r) == Binder.Bind(old(Snapshot()), args, value, fuel)
      decreases fuel, 0
    {
      if fuel == 0 { return Exc(StackOverflow); }
      if !value.Fn? { return Val(value); }
      ghost var w0 := Snapshot();
      var inner := fuel - 1;
      var o := BindDependencies(args, inner);
      ghost var w1 := Snapshot();
      assert (w1, o) == BindDeps(w0, args, 0, inner);
      if o.Threw? { return Exc(o.error); }
      r := BindFunction(args, value.ref);
      assert (Snapshot(), r) == BindSelf(w1, args, value.ref);
    }

    /** The `while (i < args.length)` loop of lines 148-152. */
    method BindDependencies(args: seq<Descriptor>, fuel: nat) returns (o: Outcome)
      requires Valid()
      modifies this
      ensures (Snapshot(), o) == BindDeps(old(Snapshot()), args, 0, fuel)
      decreases fuel, 1
    {
      ghost var w0 := Snapshot();
      var i := 0;
      while i < |args|
        invariant i <= |args| && Valid()
        invariant BindDeps(w0, args, 0, fuel) == BindDeps(Snapshot(), args, i, fuel)
      {
        var k := RawKey(args[i]);
        if k !in registry { return Threw(UndefinedDependency); }
        var rec := registry[k];
        var sub := Bind(DepsList(rec), ValueOf(rec), fuel);
        if sub.Exc? { return Threw(sub.error); }
        i := i + 1;
      }
      o := Ok;
    }

    /** Lines 153-171: bind the function itself to the dependencies' values. */
    method BindFunction(args: seq<Descriptor>, ref: nat) returns (r: Res<Value>)
      requires Valid() && ref < |heap|
      requires forall j :: 0 <= j < |args| ==> RawKey(args[j]) in registry
      modifies this
      ensures (Snapshot(), r) == BindSelf(old(Snapshot()), args, ref)
    {
      var argv := ArgValues(registry, args);
      match heap[ref].meta
      case None =>
        heap := heap + [FnObj(BoundTo(ref, argv), None, map[])];
        r := Val(Fn(|heap| - 1));
      case Some(m) =>
        var n := metas[m].name;
        if n !in registry { return Exc(UndefinedFactoryRecord); }
        var f := ValueOf(registry[n]);
        if !metas[m].binded {
          if !f.Fn? { return Exc(BindNonFunction); }
          var g := heap[f.ref];
          var nref := |heap|;
          ghost var target := World(
            registry[n := Defined(registry[n].deps, Fn(nref))],
            heap + [FnObj(BoundTo(f.ref, argv), g.meta, g.statics)],
            metas[m := Meta(n, true)],
            fetches);
          assert BindSelf(old(Snapshot()), args, ref) == (target, Val(f));
          heap := heap + [FnObj(BoundTo(f.ref, argv), None, map[])];
          registry := registry[n := Defined(registry[n].deps, Fn(nref))];
          CopyProperties(nref, g);
          metas := metas[m := Meta(n, true)];
          assert heap == target.heap;
        }
        r := Val(f);
    }

    /**
     * The `for (var _fKey in _f)` copy of lines 163-165 onto a bound function
     * that has no own properties yet; `_metadata` is one of them.
     */
    method CopyProperties(nref: nat, g: FnObj)
      requires nref < |heap| && heap[nref].meta.None? && heap[nref].statics == map[]
      modifies this
      ensures heap == old(heap)[nref := FnObj(old(heap)[nref].body, g.meta, g.statics)]
      ensures registry == old(registry) && metas == old(metas) && fetches == old(fetches)
    {
      heap := heap[nref := heap[nref].(meta := g.meta)];
      var todo := g.statics.Keys;
      while todo != {}
        invariant |heap| == |old(heap)| && registry == old(registry) && metas == old(metas) && fetches == old(fetches)
        invariant todo <= g.statics.Keys
        invariant heap[..nref] == old(heap)[..nref] && heap[nref + 1..] == old(heap)[nref + 1..]
        invariant heap[nref].body == old(heap)[nref].body && heap[nref].meta == g.meta
        invariant heap[nref].statics == map k | k in g.statics.Keys - todo :: g.statics[k]
        decreases todo
      {
        var key :| key in todo;
        heap := heap[nref := heap[nref].(statics := heap[nref].statics[key := g.statics[key]])];
        todo := todo - {key};
      }
      assert heap[nref].statics == g.statics;
      assert heap == heap[..nref] + [heap[nref]] + heap[nref + 1..];
      assert old(heap) == old(heap)[..nref] + [old(heap)[nref]] + old(heap)[nref + 1..];
    }

    /**
     * `_resolveFile(dep)` up to the start of the download (lines 241-274):
     * the placeholder, then the download of the locator.
     */
    method ResolveFile(root: Request, dep: Descriptor)
      requires Valid()
      modifies this
      ensures Valid() && Snapshot() == StartFetch(old(Snapshot()), root, dep)
    {
      registry := registry[GetModuleName(dep) := Pending];
      fetches := fetches + [Fetch(root, dep, WithDefaultExt(GetModuleUrl(dep)), false)];
    }

    /** `_loadDeps(root, deps, value, treeDeps)` (lines 100-179). */
    method LoadDeps(root: Request, deps: seq<Descriptor>, fuel: nat) returns (o: Outcome)
      requires Valid() && ValidValue(|heap|, root.value)
      modifies this, root
      ensures (Snapshot(), root.Snapshot(), o) == Load(old(Snapshot()), root, old(root.Snapshot()), deps, fuel)
      decreases fuel, 0
    {
      if fuel == 0 { return Threw(StackOverflow); }
      if |deps| > 0 {
        root.tree := root.tree + [UrlsOf(deps)];
      }
      var inner := fuel - 1;
      o := EachDep(root, deps, inner);
      if o.Threw? { return; }
      o := Deliver(root, fuel);
    }

    /** The `deps.forEach` of lines 107-123; a throw from a nested `_loadDeps` stops it. */
    method EachDep(root: Request, deps: seq<Descriptor>, fuel: nat) returns (o: Outcome)
      requires Valid() && ValidValue(|heap|, root.value)
      modifies this, root
      ensures (Snapshot(), root.Snapshot(), o) == Each(old(Snapshot()), root, old(root.Snapshot()), deps, 0, fuel)
      decreases fuel, 2
    {
      ghost var w0 := Snapshot();
      ghost var r0 := root.Snapshot();
      var i := 0;
      while i < |deps|
        invariant i <= |deps| && Valid() && ValidValue(|heap|, root.value)
        invariant Each(w0, root, r0, deps, 0, fuel) == Each(Snapshot(), root, root.Snapshot(), deps, i, fuel)
      {
        EachVisit(Snapshot(), root, root.Snapshot(), deps, i, fuel);
        o := VisitDep(root, deps[i], fuel);
        if o.Threw? { return; }
        i := i + 1;
      }
      o := Ok;
    }

    /** The body of the `forEach` callback (lines 108-122) for one entry. */
    method VisitDep(root: Request, dep: Descriptor, fuel: nat) returns (o: Outcome)
      requires Valid() && ValidValue(|heap|, root.value)
      modifies this, root
      ensures (Snapshot(), root.Snapshot(), o) == Visit(old(Snapshot()), root, old(root.Snapshot()), dep, fuel)
      decreases fuel, 1
    {
      var depName := GetModuleName(dep);
      if depName in registry {
        match registry[depName]
        case Pending =>
          o := Ok;
        case Defined(ds, _) =>
          o := LoadDeps(root, ds, fuel);
      } else {
        ResolveFile(root, dep);
        o := Ok;
      }
    }

    /**
     * Lines 174-178: re-map `root.deps` through `_getModuleName`; if
     * `allResolved` holds and the request is not yet resolved, mark it and
     * call the callback with `bind(root.deps, root.value)`.
     */
    method Deliver(root: Request, fuel: nat) returns (o: Outcome)
      requires Valid() && ValidValue(|heap|, root.value) && fuel > 0
      modifies this, root
      ensures (Snapshot(), root.Snapshot(), o) == Settle(old(Snapshot()), old(root.Snapshot()), fuel)
    {
      root.deps := NormaliseAll(root.deps);
      var ok := AllResolved(Some(root.deps), fuel);
      if ok.Exc? { return Threw(ok.error); }
      if !ok.v || root.resolved { return Ok; }
      root.resolved := true;
      var b := Bind(root.deps, root.value, fuel);
      if b.Exc? { return Threw(b.error); }
      o := InvokeCallback(root, b.v);
    }

    /** The callback `require` gives the request (lines 81-86). */
    static method InvokeCallback(root: Request, exec: Value) returns (o: Outcome)
      requires root.resolved
      modifies root
      ensures (root.Snapshot(), o) == Callback(old(root.Snapshot()), exec)
    {
      root.calls := root.calls + [Call(root.deps, exec)];
      var flat := Flatten(root.tree);
      if flat.None? { return Threw(EmptyReduce); }
      if !exec.Fn? { return Threw(CallNonFunction); }
      root.executed := root.executed + [exec];
      o := Ok;
    }

    /** `injector.require(deps, value)` (lines 71-88): a new request, then `_loadDeps`. */
    method Require(deps: seq<Descriptor>, value: Value, fuel: nat) returns (root: Request, o: Outcome)
      requires Valid() && ValidValue(|heap|, value)
      modifies this
      ensures fresh(root)
      ensures (Snapshot(), root.Snapshot(), o) == Load(old(Snapshot()), root, Req(deps, value, false, [], [], [], []), deps, fuel)
    {
      root := new Request(deps, value);
      o := LoadDeps(root, deps, fuel);
    }

    /** Download `k` fails (the error handlers of lines 118-121 and 204-237). */
    method OnFetchError(k: nat, root: Request)
      requires k < |fetches| && !fetches[k].settled && fetches[k].root == root
      requires StrategyOfFetch(fetches[k]) != NeverSettles
      modifies this, root
      ensures (Snapshot(), root.Snapshot()) == FetchFailed(old(Snapshot()), old(root.Snapshot()), k)
    {
      var f := fetches[k];
      var strategy := StrategyOfFetch(f);
      ghost var w1 := MarkSettled(Snapshot(), k);
      ghost var r0 := root.Snapshot();
      fetches := fetches[k := f.(settled := true)];
      if strategy == Script {
        var name := GetModuleName(f.dep);
        registry := registry - {name};
        root.rejections := root.rejections + [name];
        assert (Snapshot(), root.Snapshot()) == (w1.(reg := w1.reg - {name}), r0.(rejections := r0.rejections + [name]));
      } else if strategy == ExtTypeError {
        registry := registry - {"TypeError"};
        root.rejections := root.rejections + ["TypeError"];
        assert (Snapshot(), root.Snapshot()) == (w1.(reg := w1.reg - {"TypeError"}), r0.(rejections := r0.rejections + ["TypeError"]));
      } else {
        assert (Snapshot(), root.Snapshot()) == (w1, r0);
      }
    }

    /** Script download `k` has loaded and run; `global` is the global of the pair's name. */
    method OnScriptLoad(k: nat, root: Request, global: Value, fuel: nat) returns (o: Outcome)
      requires Valid() && ValidValue(|heap|, root.value) && ValidValue(|heap|, global)
      requires k < |fetches| && !fetches[k].settled && fetches[k].root == root
      requires StrategyOfFetch(fetches[k]) == Script
      modifies this, root
      ensures (Snapshot(), root.Snapshot(), o) == ScriptLoaded(old(Snapshot()), root, old(root.Snapshot()), k, global, fuel)
    {
      var f := fetches[k];
      fetches := fetches[k := f.(settled := true)];
      var name := GetModuleName(f.dep);
      if f.dep.Pair? {
        var d := Define([Str(name), global], "");
        if d.Exc? { return Threw(d.error); }
      }
      if name !in registry || registry[name].Pending? { return Threw(UndefinedModule); }
      o := LoadDeps(root, registry[name].deps, fuel);
    }

    /** Text download `k` has loaded with body `text`. */
    method OnTextLoad(k: nat, root: Request, text: string, fuel: nat) returns (o: Outcome)
      requires Valid() && ValidValue(|heap|, root.value)
      requires k < |fetches| && !fetches[k].settled && fetches[k].root == root
      requires StrategyOfFetch(fetches[k]) == Text
      modifies this, root
      ensures (Snapshot(), root.Snapshot(), o) == TextLoaded(old(Snapshot()), root, old(root.Snapshot()), k, text, fuel)
    {
      var f := fetches[k];
      fetches := fetches[k := f.(settled := true)];
      var d := Define([DescriptorValue(f.dep), Str(text)], "");
      match d
      case Exc(e) => o := Threw(e);
      case Val(name) => o := LoadDeps(root, registry[name].deps, fuel);
    }
  }
}
