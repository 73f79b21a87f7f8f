/**
 * `bind` (injector.js 141-172): depth-first binding of a dependency list,
 * then of the value itself. A named factory (one with `_metadata`) has its
 * registry value replaced once by `Function.prototype.bind` of it, with its
 * enumerable properties copied over (the shared `_metadata` object among
 * them) and `binded` set; an anonymous function is bound without caching.
 */
module Binder {
  import opened Wrappers
  import opened Names
  import opened State
  import opened Resolve

  /**
   * How `bind` may change the world: the heap only grows, the `_metadata`
   * objects keep their names and `binded` only goes from false to true, the
   * downloads, the registry's keys and `deps` are untouched, and a registry
   * value that changed is a new function whose module a `_metadata` object
   * named after it went from unbound to bound.
   */
  predicate Grows(w: World, w': World) {
    |w.heap| <= |w'.heap| && w'.heap[..|w.heap|] == w.heap &&
    |w'.metas| == |w.metas| &&
    (forall m :: 0 <= m < |w.metas| ==>
      w'.metas[m].name == w.metas[m].name && (w.metas[m].binded ==> w'.metas[m].binded)) &&
    w'.fetches == w.fetches &&
    SameShape(w.reg, w'.reg) &&
    (forall k :: k in w.reg && ValueOf(w'.reg[k]) != ValueOf(w.reg[k]) ==>
      ValueOf(w'.reg[k]).Fn? && ValueOf(w'.reg[k]).ref >= |w.heap| &&
      exists m :: 0 <= m < |w.metas| && w.metas[m].name == k && !w.metas[m].binded && w'.metas[m].binded)
  }

  lemma GrowsRefl(w: World)
    ensures Grows(w, w)
  {
    assert w.heap[..|w.heap|] == w.heap;
  }

  lemma GrowsTrans(w1: World, w2: World, w3: World)
    requires Grows(w1, w2) && Grows(w2, w3)
    ensures Grows(w1, w3)
  {
    assert w3.heap[..|w1.heap|] == w3.heap[..|w2.heap|][..|w1.heap|];
    forall k | k in w1.reg && ValueOf(w3.reg[k]) != ValueOf(w1.reg[k])
      ensures ValueOf(w3.reg[k]).Fn? && ValueOf(w3.reg[k]).ref >= |w1.heap|
      ensures exists m :: 0 <= m < |w1.metas| && w1.metas[m].name == k && !w1.metas[m].binded && w3.metas[m].binded
    {
      if ValueOf(w3.reg[k]) != ValueOf(w2.reg[k]) {
        var m :| 0 <= m < |w2.metas| && w2.metas[m].name == k && !w2.metas[m].binded && w3.metas[m].binded;
        assert w1.metas[m].name == k && !w1.metas[m].binded;
      } else {
        var m :| 0 <= m < |w1.metas| && w1.metas[m].name == k && !w1.metas[m].binded && w2.metas[m].binded;
        assert w3.metas[m].binded;
      }
    }
  }

  /** The list a dependency's own `bind` runs over; a placeholder's value is undefined and returns at once. */
  function DepsList(r: Record): seq<Descriptor>
  {
    match r
    case Pending => []
    case Defined(ds, _) => ds
  }

  /** `args.map(arg => injector._dependencies[arg].value)`. */
  function ArgValues(reg: map<string, Record>, args: seq<Descriptor>): (r: seq<Value>)
    requires forall j :: 0 <= j < |args| ==> RawKey(args[j]) in reg
    ensures |r| == |args|
    ensures forall j :: 0 <= j < |args| ==> r[j] == ValueOf(reg[RawKey(args[j])])
  {
    if args == [] then [] else [ValueOf(reg[RawKey(args[0])])] + ArgValues(reg, args[1..])
  }

  /** What every step of `bind` keeps: the heap only grows, the registry keeps its keys. */
  predicate Extends(w: World, w': World) {
    |w.heap| <= |w'.heap| && w'.reg.Keys == w.reg.Keys
  }

  function Bind(w: World, args: seq<Descriptor>, value: Value, fuel: nat): (out: (World, Res<Value>))
    requires WF(w) && ValidValue(|w.heap|, value)
    ensures WF(out.0) && Extends(w, out.0)
    ensures out.1.Val? ==> ValidValue(|out.0.heap|, out.1.v)
    decreases fuel, 0, 0
  {
    if fuel == 0 then (w, Exc(StackOverflow))
    else if !value.Fn? then (w, Val(value))
    else
      var (w1, o) := BindDeps(w, args, 0, fuel - 1);
      if o.Threw? then (w1, Exc(o.error))
      else BindSelf(w1, args, value.ref)
  }

  /**
   * The `while (i < args.length)` loop from index `i`; `fuel` is what is
   * left of the stack for each nested `bind`.
   */
  function BindDeps(w: World, args: seq<Descriptor>, i: nat, fuel: nat): (out: (World, Outcome))
    requires WF(w) && i <= |args|
    ensures WF(out.0) && Extends(w, out.0)
    ensures out.1.Ok? ==> forall j :: i <= j < |args| ==> RawKey(args[j]) in w.reg
    decreases fuel, 1, |args| - i
  {
    if i == |args| then (w, Ok)
    else
      var k := RawKey(args[i]);
      if k !in w.reg then (w, Threw(UndefinedDependency))
      else
        var rec := w.reg[k];
        var (w1, r) := Bind(w, DepsList(rec), ValueOf(rec), fuel);
        if r.Exc? then (w1, Threw(r.error))
        else BindDeps(w1, args, i + 1, fuel)
  }

  /** Lines 153-171, once the dependencies are bound. */
  function BindSelf(w: World, args: seq<Descriptor>, ref: nat): (out: (World, Res<Value>))
    requires WF(w) && ref < |w.heap|
    requires forall j :: 0 <= j < |args| ==> RawKey(args[j]) in w.reg
    ensures WF(out.0) && Extends(w, out.0)
    ensures out.1.Val? ==> ValidValue(|out.0.heap|, out.1.v)
    ensures out.1 != Exc(UndefinedDependency)
  {
    var argv := ArgValues(w.reg, args);
    match w.heap[ref].meta
    case None =>
      (w.(heap := w.heap + [FnObj(BoundTo(ref, argv), None, map[])]), Val(Fn(|w.heap|)))
    case Some(m) =>
      var n := w.metas[m].name;
      if n !in w.reg then (w, Exc(UndefinedFactoryRecord))
      else
        var cur := ValueOf(w.reg[n]);
        if w.metas[m].binded then (w, Val(cur))
        else if !cur.Fn? then (w, Exc(BindNonFunction))
        else
          var g := w.heap[cur.ref];
          var w' := World(
            w.reg[n := Defined(w.reg[n].deps, Fn(|w.heap|))],
            w.heap + [FnObj(BoundTo(cur.ref, argv), g.meta, g.statics)],
            w.metas[m := Meta(n, true)],
            w.fetches);
          (w', Val(cur))
  }

  /**
   * `bind` only adds to the heap, sets `binded` flags, keeps every registry
   * key and `deps`, and replaces a registry value only by a fresh bound
   * function while flipping that module's `binded` flag.
   */
  lemma {:induction false} BindGrows(w: World, args: seq<Descriptor>, value: Value, fuel: nat)
    requires WF(w) && ValidValue(|w.heap|, value)
    ensures Grows(w, Bind(w, args, value, fuel).0)
    decreases fuel, 0, 0
  {
    if fuel == 0 || !value.Fn? {
      GrowsRefl(w);
    } else {
      var (w1, o) := BindDeps(w, args, 0, fuel - 1);
      BindDepsGrows(w, args, 0, fuel - 1);
      if o.Ok? {
        BindSelfGrows(w1, args, value.ref);
        GrowsTrans(w, w1, BindSelf(w1, args, value.ref).0);
      }
    }
  }

  lemma {:induction false} BindDepsGrows(w: World, args: seq<Descriptor>, i: nat, fuel: nat)
    requires WF(w) && i <= |args|
    ensures Grows(w, BindDeps(w, args, i, fuel).0)
    decreases fuel, 1, |args| - i
  {
    if i == |args| || RawKey(args[i]) !in w.reg {
      GrowsRefl(w);
    } else {
      var rec := w.reg[RawKey(args[i])];
      var (w1, r) := Bind(w, DepsList(rec), ValueOf(rec), fuel);
      BindGrows(w, DepsList(rec), ValueOf(rec), fuel);
      if r.Val? {
        BindDepsGrows(w1, args, i + 1, fuel);
        GrowsTrans(w, w1, BindDeps(w1, args, i + 1, fuel).0);
      }
    }
  }

  lemma BindSelfGrows(w: World, args: seq<Descriptor>, ref: nat)
    requires WF(w) && ref < |w.heap|
    requires forall j :: 0 <= j < |args| ==> RawKey(args[j]) in w.reg
    ensures Grows(w, BindSelf(w, args, ref).0)
  {
    var w' := BindSelf(w, args, ref).0;
    match w.heap[ref].meta
    case None =>
      assert w'.heap[..|w.heap|] == w.heap;
    case Some(m) =>
      var n := w.metas[m].name;
      if n !in w.reg || w.metas[m].binded || !ValueOf(w.reg[n]).Fn? {
        GrowsRefl(w);
      } else {
        assert w'.heap[..|w.heap|] == w.heap;
        assert w'.metas[m].name == n && !w.metas[m].binded && w'.metas[m].binded;
      }
  }

  // ---------------------------------------------------------------------
  // Properties
  // ---------------------------------------------------------------------

  /** A value that is not a function is returned unchanged, and nothing changes. */
  lemma BindReturnsNonFunction(w: World, args: seq<Descriptor>, value: Value, fuel: nat)
    requires WF(w) && ValidValue(|w.heap|, value) && fuel > 0 && !value.Fn?
    ensures Bind(w, args, value, fuel) == (w, Val(value))
  {
  }

  /**
   * Binding an anonymous function (no `_metadata`) leaves the registry's
   * values as the dependencies' binding left them and returns a new bound
   * function over exactly those values, in the order of `args`, with no
   * properties of its own.
   */
  lemma BindAnonymous(w: World, args: seq<Descriptor>, ref: nat, fuel: nat)
    requires WF(w) && ref < |w.heap| && w.heap[ref].meta.None? && fuel > 0
    requires BindDeps(w, args, 0, fuel - 1).1.Ok?
    ensures var w1 := BindDeps(w, args, 0, fuel - 1).0;
      var out := Bind(w, args, Fn(ref), fuel);
      out.0.reg == w1.reg && out.0.metas == w1.metas &&
      out.1 == Val(Fn(|w1.heap|)) && |out.0.heap| == |w1.heap| + 1 &&
      out.0.heap[|w1.heap|] == FnObj(BoundTo(ref, ArgValues(w1.reg, args)), None, map[]) &&
      forall j :: 0 <= j < |args| ==> out.0.heap[|w1.heap|].body.args[j] == ValueOf(w1.reg[RawKey(args[j])])
  {
    var w1 := BindDeps(w, args, 0, fuel - 1).0;
    BindDepsGrows(w, args, 0, fuel - 1);
    assert w1.heap[..|w.heap|] == w.heap;
    assert w1.heap[ref] == w.heap[ref];
  }

  /**
   * The first binding of a named factory: the registry value under its
   * `_metadata.name` becomes a new function bound to the old value and the
   * dependency values, carrying the old value's `_metadata` and static
   * properties; `binded` is set; the old value is returned; no other
   * registry entry and no `deps` change.
   */
  lemma BindNamedFirstTime(w: World, args: seq<Descriptor>, ref: nat, m: nat)
    requires WF(w) && ref < |w.heap| && w.heap[ref].meta == Some(m)
    requires forall j :: 0 <= j < |args| ==> RawKey(args[j]) in w.reg
    requires var n := w.metas[m].name; n in w.reg && !w.metas[m].binded && ValueOf(w.reg[n]).Fn?
    ensures var n := w.metas[m].name;
      var old_ := ValueOf(w.reg[n]);
      var out := BindSelf(w, args, ref);
      out.1 == Val(old_) &&
      out.0.reg == w.reg[n := Defined(w.reg[n].deps, Fn(|w.heap|))] &&
      out.0.heap == w.heap + [FnObj(BoundTo(old_.ref, ArgValues(w.reg, args)), w.heap[old_.ref].meta, w.heap[old_.ref].statics)] &&
      out.0.metas == w.metas[m := Meta(n, true)]
  {
  }

  /** Once `binded` is set, binding the factory again changes nothing and returns the cached value. */
  lemma BindNamedAgain(w: World, args: seq<Descriptor>, ref: nat, m: nat)
    requires WF(w) && ref < |w.heap| && w.heap[ref].meta == Some(m)
    requires forall j :: 0 <= j < |args| ==> RawKey(args[j]) in w.reg
    requires w.metas[m].name in w.reg && w.metas[m].binded
    ensures BindSelf(w, args, ref) == (w, Val(ValueOf(w.reg[w.metas[m].name])))
  {
  }

  /**
   * A module whose every `_metadata` object is already bound keeps its
   * registry value through any `bind`: each factory is replaced at most once.
   */
  lemma BoundModuleStays(w: World, args: seq<Descriptor>, value: Value, fuel: nat, k: string)
    requires WF(w) && ValidValue(|w.heap|, value) && k in w.reg
    requires forall m :: 0 <= m < |w.metas| && w.metas[m].name == k ==> w.metas[m].binded
    ensures var w' := Bind(w, args, value, fuel).0; k in w'.reg && w'.reg[k] == w.reg[k]
  {
    var w' := Bind(w, args, value, fuel).0;
    BindGrows(w, args, value, fuel);
    assert DepsOf(w'.reg[k]) == DepsOf(w.reg[k]);
    assert ValueOf(w'.reg[k]) == ValueOf(w.reg[k]);
  }

  /**
   * When `allResolved(args)` holds, every registry lookup `bind` makes for a
   * dependency (`injector._dependencies[dep]`, lines 150 and 154) finds a record.
   */
  lemma {:induction false} ResolvedBindsWithoutMissingDependency(w: World, args: seq<Descriptor>, value: Value, fuel: nat, rfuel: nat)
    requires WF(w) && ValidValue(|w.heap|, value)
    requires Resolved(w.reg, Some(args), rfuel) == Val(true)
    ensures Bind(w, args, value, fuel).1 != Exc(UndefinedDependency)
    decreases fuel, 0, 0
  {
    if fuel > 0 && value.Fn? {
      var inner := fuel - 1;
      ResolvedBindDepsWithoutMissingDependency(w, args, 0, inner, rfuel);
      var (w1, o) := BindDeps(w, args, 0, inner);
      if o.Ok? {
        assert Bind(w, args, value, fuel) == BindSelf(w1, args, value.ref);
      }
    }
  }

  lemma {:induction false} ResolvedBindDepsWithoutMissingDependency(w: World, args: seq<Descriptor>, i: nat, fuel: nat, rfuel: nat)
    requires WF(w) && i <= |args|
    requires Resolved(w.reg, Some(args), rfuel) == Val(true)
    ensures BindDeps(w, args, i, fuel).1 != Threw(UndefinedDependency)
    decreases fuel, 1, |args| - i
  {
    if i < |args| {
      AllResolvedCases(w.reg, Some(args), rfuel);
      assert EntryResolved(w.reg, args, i, rfuel);
      var k := RawKey(args[i]);
      var rec := w.reg[k];
      assert rec.Defined?;
      assert Resolved(w.reg, Some(DepsList(rec)), rfuel - 1) == Val(true);
      ResolvedBindsWithoutMissingDependency(w, DepsList(rec), ValueOf(rec), fuel, rfuel - 1);
      var (w1, r) := Bind(w, DepsList(rec), ValueOf(rec), fuel);
      if r.Val? {
        BindGrows(w, DepsList(rec), ValueOf(rec), fuel);
        ResolvedSameShape(w.reg, w1.reg, Some(args), rfuel);
        ResolvedBindDepsWithoutMissingDependency(w1, args, i + 1, fuel, rfuel);
      }
    }
  }
}
