/**
 * The state the injector works on: JavaScript values as far as the injector
 * distinguishes them, the function objects and `_metadata` objects they point
 * to, the registry `injector._dependencies`, the downloads it has started, and
 * the per-`require` request object `root`.
 */
module State {
  import opened Wrappers
  import opened Names

  /** A JavaScript value as seen by `define`, `bind` and `typeof`. */
  datatype Value =
    | Undefined
    | Null
    | Num(n: int)                 // numbers, booleans: `typeof` matches none of define's cases
    | Str(s: string)
    | Obj(id: nat)                // a plain object
    | Arr(elems: seq<Descriptor>) // an array, as a dependency list
    | Fn(ref: nat)                // a function object, an index into the heap

  /** What a function object does when called. */
  datatype Body =
    | Source(code: nat)                      // a function written by a user
    | BoundTo(target: nat, args: seq<Value>) // the result of `Function.prototype.bind`

  /**
   * A function object: its body, its `_metadata` property (an index into the
   * `_metadata` objects, which may be shared) and its other enumerable
   * properties ("static" properties).
   */
  datatype FnObj = FnObj(body: Body, meta: Option<nat>, statics: map<string, Value>)

  /** A `_metadata` object: `{name, binded}`. */
  datatype Meta = Meta(name: string, binded: bool)

  /** A registry record: `{pending: true}` or `{deps, value}`. */
  datatype Record = Pending | Defined(deps: seq<Descriptor>, value: Value)

  /** The record's `deps` property; a placeholder has none. */
  function DepsOf(r: Record): Option<seq<Descriptor>>
  {
    match r
    case Pending => None
    case Defined(ds, _) => Some(ds)
  }

  /** The record's `value` property; a placeholder has none. */
  function ValueOf(r: Record): Value
  {
    match r
    case Pending => Undefined
    case Defined(_, v) => v
  }

  /** An exception thrown out of an operation. */
  datatype Error =
    | StackOverflow          // RangeError: the call stack is exhausted (a dependency cycle)
    | UndefinedDependency    // TypeError: `injector._dependencies[dep].deps` of a missing record
    | UndefinedFactoryRecord // TypeError: `injector._dependencies[value._metadata.name].value` of a missing record
    | BindNonFunction        // TypeError: `Function.prototype.bind` applied to a non-function
    | CallNonFunction        // TypeError: `exec()` where exec is not a function
    | EmptyReduce            // TypeError: `reduce` of an empty array with no initial value
    | NullishMetadata        // TypeError: `value._metadata = ...` with value undefined or null
    | UndefinedModule        // TypeError: `dep.deps` or `deps.length` of undefined in a fetch handler

  datatype Outcome = Ok | Threw(error: Error)

  datatype Res<T> = Val(v: T) | Exc(error: Error)

  /** One invocation of `root.callback(bind(root.deps, root.value), treeDeps)`. */
  datatype Call = Call(names: seq<Descriptor>, exec: Value)

  /** The fields of a request object `root`, and what it has delivered. */
  datatype Req = Req(
    deps: seq<Descriptor>,     // root.deps
    value: Value,              // root.value, the callback given to require
    resolved: bool,            // root.resolved
    tree: seq<seq<string>>,    // treeDeps
    calls: seq<Call>,          // invocations of root.callback
    executed: seq<Value>,      // calls of exec() made by the callback
    rejections: seq<string>)   // names passed to root.reject

  /** The request object `root` built by `require`. */
  class Request {
    var deps: seq<Descriptor>
    var value: Value
    var resolved: bool
    var tree: seq<seq<string>>
    var calls: seq<Call>
    var executed: seq<Value>
    var rejections: seq<string>

    function Snapshot(): Req
      reads this
    {
      Req(deps, value, resolved, tree, calls, executed, rejections)
    }

    constructor (deps: seq<Descriptor>, value: Value)
      ensures Snapshot() == Req(deps, value, false, [], [], [], [])
    {
      this.deps := deps;
      this.value := value;
      resolved := false;
      tree := [];
      calls := [];
      executed := [];
      rejections := [];
    }
  }

  /** A download started by `_resolveFile` on behalf of a request. */
  datatype Fetch = Fetch(root: Request, dep: Descriptor, url: string, settled: bool)

  /** The registry, the heap of function and `_metadata` objects, and the downloads. */
  datatype World = World(
    reg: map<string, Record>,
    heap: seq<FnObj>,
    metas: seq<Meta>,
    fetches: seq<Fetch>)

  predicate ValidValue(heapSize: nat, v: Value) {
    v.Fn? ==> v.ref < heapSize
  }

  /** Every registry value and every `_metadata` link points into the heap. */
  predicate WF(w: World) {
    (forall k :: k in w.reg ==> ValidValue(|w.heap|, ValueOf(w.reg[k]))) &&
    (forall i :: 0 <= i < |w.heap| ==> w.heap[i].meta.Some? ==> w.heap[i].meta.value < |w.metas|)
  }

  /** Two registries with the same keys, the same placeholders and the same `deps`. */
  predicate SameShape(r1: map<string, Record>, r2: map<string, Record>) {
    r1.Keys == r2.Keys && forall k :: k in r1 ==> DepsOf(r1[k]) == DepsOf(r2[k])
  }
}
