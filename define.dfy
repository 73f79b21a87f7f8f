/**
 * `define` (injector.js 30-67): sniffing the shape of the call from the
 * number and `typeof` of its arguments, then `value._metadata = {name}` and
 * `injector._dependencies[name] = {deps, value}`. The name is stored as
 * given: it is not normalised.
 */
module Define {
  import opened Wrappers
  import opened Names
  import opened State

  /** The uniform triple a call is classified into. */
  datatype Decl = Decl(name: string, deps: seq<Descriptor>, value: Value)

  predicate Nullish(v: Value) { v.Undefined? || v.Null? }

  /** `typeof v` is 'function', 'object' or 'string' (null and arrays are objects). */
  predicate FunctionObjectOrString(v: Value) {
    v.Fn? || v.Obj? || v.Arr? || v.Null? || v.Str?
  }

  /** `_getModuleName(getPathName())`: `getPathName` already clears the script's decoded path once. */
  function AnonymousName(path: string): (r: string)
    ensures |r| >= 1 && r[0] == '/'
  {
    GetModuleName(Name(ClearName(path)))
  }

  /**
   * The argument sniffing of lines 31-58 followed by the `_metadata` write of
   * line 59, which throws when `value` ended up undefined or null. `path` is
   * the decoded `src` of the script running the call. A call with three
   * arguments is `define(name, deps, value)` with a string and an array.
   */
  function Classify(args: seq<Value>, path: string): (r: Res<Decl>)
    requires |args| >= 3 ==> args[0].Str? && args[1].Arr?
    ensures r.Val? ==> !Nullish(r.v.value) && r.v.value in args
    ensures r.Exc? ==> r.error == NullishMetadata
    ensures |args| >= 1 && args[0].Str? && r.Val? ==> r.v.name == args[0].s
  {
    var d :=
      if |args| >= 3 then Decl(args[0].s, args[1].elems, args[2])
      else
        var a0 := if |args| > 0 then args[0] else Undefined;
        var a1 := if |args| > 1 then args[1] else Undefined;
        if a0.Arr? then Decl(AnonymousName(path), a0.elems, a1)
        else if a0.Fn? then Decl(AnonymousName(path), [], a0)
        else if a0.Str? && FunctionObjectOrString(a1) then Decl(a0.s, [], a1)
        else Decl("", [], Undefined);
    if Nullish(d.value) then Exc(NullishMetadata) else Val(d)
  }

  /** The four documented forms of a call. */
  datatype Form =
    | Full(name: string, deps: seq<Descriptor>, value: Value)   // define(name, deps, value)
    | AnonWithDeps(deps: seq<Descriptor>, value: Value)          // define(deps, value)
    | AnonFactory(f: nat)                                        // define(function)
    | NamedValue(name: string, value: Value)                     // define(name, value)

  function ArgsOf(form: Form): seq<Value>
  {
    match form
    case Full(n, ds, v) => [Str(n), Arr(ds), v]
    case AnonWithDeps(ds, v) => [Arr(ds), v]
    case AnonFactory(f) => [Fn(f)]
    case NamedValue(n, v) => [Str(n), v]
  }

  /** The form's triple: anonymous forms are named after the running script. */
  function Intended(form: Form, path: string): Decl
  {
    match form
    case Full(n, ds, v) => Decl(n, ds, v)
    case AnonWithDeps(ds, v) => Decl(AnonymousName(path), ds, v)
    case AnonFactory(f) => Decl(AnonymousName(path), [], Fn(f))
    case NamedValue(n, v) => Decl(n, [], v)
  }

  predicate Admissible(form: Form) {
    match form
    case Full(_, _, v) => !Nullish(v)
    case AnonWithDeps(_, v) => !Nullish(v)
    case AnonFactory(_) => true
    case NamedValue(_, v) => FunctionObjectOrString(v) && !v.Null?
  }

  /**
   * Each documented form is recognised: three arguments are stored as given,
   * an array first gives the deps and the second argument is the value, a
   * function alone gets `[]`, a name with a function, object or string gets `[]`.
   */
  lemma {:induction false} ClassifyForms(form: Form, path: string)
    requires Admissible(form)
    ensures Classify(ArgsOf(form), path) == Val(Intended(form, path))
  {
  }

  /** Calls the sniffing leaves with an undefined or null value throw at the `_metadata` write. */
  lemma ClassifyThrows(args: seq<Value>, path: string)
    requires |args| < 3
    requires |args| == 0 || (!args[0].Arr? && !args[0].Fn? &&
      (!args[0].Str? || |args| == 1 || !FunctionObjectOrString(args[1]) || args[1].Null?)) ||
      (args[0].Arr? && (|args| == 1 || Nullish(args[1])))
    ensures Classify(args, path) == Exc(NullishMetadata)
  {
  }

  /**
   * `define` on a world: the classified triple overwrites whatever record
   * was under the name (a placeholder included), no other key changes, a
   * function value gets a fresh `_metadata` object `{name}` (not bound),
   * and the name is returned. A throw changes nothing.
   */
  function DefineIn(w: World, args: seq<Value>, path: string): (out: (World, Res<string>))
    requires WF(w) && forall j :: 0 <= j < |args| ==> ValidValue(|w.heap|, args[j])
    requires |args| >= 3 ==> args[0].Str? && args[1].Arr?
    ensures WF(out.0)
    ensures out.1.Exc? ==> out.0 == w
    ensures out.1.Val? <==> Classify(args, path).Val?
    ensures out.1.Val? ==>
      var d := Classify(args, path).v;
      out.1.v == d.name &&
      out.0.reg == w.reg[d.name := Defined(d.deps, d.value)] &&
      out.0.fetches == w.fetches &&
      (d.value.Fn? ==>
        d.value.ref < |w.heap| && |out.0.heap| == |w.heap| && |out.0.metas| == |w.metas| + 1 &&
        out.0.metas[|w.metas|] == Meta(d.name, false) &&
        out.0.heap[d.value.ref] == w.heap[d.value.ref].(meta := Some(|w.metas|)) &&
        (forall i :: 0 <= i < |w.heap| && i != d.value.ref ==> out.0.heap[i] == w.heap[i]) &&
        out.0.metas[..|w.metas|] == w.metas) &&
      (!d.value.Fn? ==> out.0.heap == w.heap && out.0.metas == w.metas)
  {
    match Classify(args, path)
    case Exc(e) => (w, Exc(e))
    case Val(d) => DefineWith(w, d)
  }

  function DefineWith(w: World, d: Decl): (out: (World, Res<string>))
    requires WF(w) && ValidValue(|w.heap|, d.value)
    ensures WF(out.0)
  {
    var w1 :=
      if d.value.Fn? then
        w.(heap := w.heap[d.value.ref := w.heap[d.value.ref].(meta := Some(|w.metas|))],
           metas := w.metas + [Meta(d.name, false)])
      else w;
    (w1.(reg := w1.reg[d.name := Defined(d.deps, d.value)]), Val(d.name))
  }
}
