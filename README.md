# injector.js in Dafny

A model of `injector.js`, a small AMD module loader. It keeps one registry,
`injector._dependencies`, that maps module names to records. A record is
either `{pending: true}` or `{deps, value}`. The model also states and
proves what the loader's operations do to that registry.

- **Modules and files**
  - `Names` (`names.dfy`) normalises descriptors: `_clearName`,
    `_getModuleName` and `_getModuleUrl`. It contains a hand-written matcher
    for the expression `/http[s]?:\/\/[^\/]+(.*).js$/i`, proved to give the
    leftmost match with the greedy host.
  - `Locator` (`locator.dfy`) holds the locator rules of a download:
    - the default `.js` extension;
    - the extension match `/\.([a-z]{2,5})$/`;
    - the choice between a script and a text request.
  - `Tree` (`tree.dfy`) is the `treeDeps.reduce` of `require`'s callback.
  - `State` (`state.dfy`) holds the JavaScript values the loader tells
    apart. Function objects and `_metadata` objects live on an explicit heap,
    with the registry, the downloads and the request object `root`.
  - `Resolve` (`resolved.dfy`) is `allResolved`.
  - `Binder` (`bind.dfy`) is `bind`, which binds each named factory once.
  - `Define` (`define.dfy`) is `define`: argument sniffing, the
    `_metadata` write and registration.
  - `Resolver` (`loaddeps.dfy`) is `_loadDeps`, the placeholder written by
    `_resolveFile`, and the handlers that run when a download settles.
  - `Runtime` (`injector.dfy`) is the class `Injector`. Its fields are the
    registry, the heap, the `_metadata` objects and the downloads. Every
    method updates these in place. Each method is proved equal to the
    function of the same operation in the modules above; the lemmas there
    state what that function promises.
- **Exceptions and the call stack**
  - Thrown exceptions are values: `Outcome` and `Res` carry an `Error`.
  - A change made before a throw persists, as it does in JavaScript.
  - The call stack is finite. Each recursive operation takes a `fuel`
    argument, the stack depth left; when fuel runs out, the result is
    `StackOverflow`. This is how the model handles dependency cycles, which
    the source does not detect.
- **Downloads** are events. `_resolveFile` records a download in `fetches`.
  Its outcome arrives later, through one of `OnFetchError`, `OnScriptLoad`
  or `OnTextLoad`. Downloads may settle in any order. `Resolver.Run` replays
  a sequence of outcomes, and `RequireDeliversAtMostOnce` proves that the
  callback of a request is then invoked at most once.

Where the code's behaviour differs from what its comments and names
suggest, the model follows the code:

- **Normalising a name twice is not a no-op.**
  - A pair's key `k` becomes `'/' + k` the next time `root.deps` is mapped
    (`PairKeyNotFixed`).
  - A module name can itself contain a URL match, so the next mapping
    changes it again (`NameNotIdempotent`, `NestedUrlRemapped`).
  - A full URL `http://h/a.js` becomes `//a`, while `a` and `/a` become
    `/a` (`UrlAndBareNameDiffer`).
- **`require([], cb)` never calls `cb`.** The callback's `reduce` of an
  empty tree throws before `exec()` runs (`Callback`).
- **`allResolved` and `bind` look records up by the raw entry.** They use
  the entry as a property name, so a `{name: url}` entry becomes
  `"[object Object]"`. An entry that is not normalised does not find its
  record (`Resolve.Resolved`, `Binder.BindDeps`).
- **The first `bind` of a named factory returns the old, unbound value.**
  It does so while storing the bound one (`BindNamedFirstTime`).
- **Some failed downloads are not rejected.**
  - A failed text download (`.html`, `.json`) throws a ReferenceError in
    its error handler. It never rejects, and its placeholder stays.
  - When the extension match gives `null`, the request is rejected with the
    TypeError itself, whose `name` is `"TypeError"`. The record of that name
    is what gets deleted (`FetchFailed`).
- **A loaded text module is registered under the bare descriptor.**
  `define(file, response)` uses the descriptor as written. For a bare name
  `s`, the placeholder under `/s` therefore never resolves
  (`TextLoadKeepsPlaceholder`).
- **A short bare name is never fetched.** A locator shorter than five
  characters with no `.` gets no default extension, and the extension match
  then throws (`ShortBareNameThrows`).

## Model

| member | source | states |
|---|---|---|
| Names.SchemeEnd | injector.js:186 | `http[s]?://` matches at `p` exactly when a scheme end exists, and the one returned is where that match ends |
| Names.FirstSlash | injector.js:186 | the end of the greedy `[^\/]+` host: no `/` before it, and a `/` at it unless it is the end of the string |
| Names.MatchAt | injector.js:186 | the group of a match of the expression that starts at `p`, if one does; its meaning is stated by `MatchAtCorrect` |
| Names.FirstMatchFrom | injector.js:186 | the group of the first match at or after `p`, as `String.prototype.match` scans; stated by `FirstMatchFromCorrect` |
| Names.UrlCapture | injector.js:186 | `match[1]` of `name.match(...)`, or `None` for a `null` result; stated by `UrlCaptureCorrect` |
| Names.HasUrlName | injector.js:187 | the test `Array.isArray(match) && match[1]`: a match whose group is not empty |
| Names.MatchAtCorrect | injector.js:186 | a match starting at `p` exists exactly when the expression matches there; the group is the one of the longest host |
| Names.FirstMatchFromCorrect | injector.js:186 | the search from `p` finds a match exactly when one starts at or after `p`; it returns the group of the leftmost one with the greedy host |
| Names.UrlCaptureCorrect | injector.js:186 | `name.match(...)` matches exactly when the expression has a match; the group is taken from the leftmost match with the greedy host |
| Names.ClearName | injector.js:185-196 | `_clearName` returns a substring of its input |
| Names.ClearNameCases | injector.js:185-196 | the three branches of `_clearName`: the non-empty URL group, else one leading `/` dropped, else the input unchanged |
| Names.RawKey | injector.js:129-131 | the property name a descriptor becomes in `injector._dependencies[dep]` without normalisation: a string itself, an object `"[object Object]"` |
| Names.GetModuleName | injector.js:291-296 | a string gives `/` followed by its cleared name; a pair gives its key |
| Names.GetModuleUrl | injector.js:280-285 | a string is its own locator; a pair gives its value |
| Names.NormaliseAll | injector.js:174 | `root.deps.map(_getModuleName)`: same length, entry by entry the module name, kept as strings |
| Names.UrlsOf | injector.js:105 | `deps.map(_getModuleUrl)`: same length, entry by entry the locator |
| Names.NameFixedPoint | injector.js:174 | a name starting with `/` and without a URL group is left as it is by the re-mapping of `root.deps` |
| Names.PairKeyNotFixed | injector.js:174 | a pair's key, once stored as a string, is changed by the next re-mapping into `/` + key |
| Names.BareAndRootedAgree | injector.js:185-196 | `a` and `/a` give the same module name `/a` |
| Names.UrlAndBareNameDiffer | injector.js:185-196 | `http://h/a.js` gives `//a`, which is not the `/a` that `a` gives |
| Names.NestedUrlClearName | injector.js:185-189 | a URL whose path holds another URL clears to that inner URL |
| Names.RootedUrlClearName | injector.js:185-189 | a name holding a URL after `//` clears to that URL's path |
| Names.NameNotIdempotent | injector.js:291-296 | some descriptor has a module name that `_getModuleName` changes again: `_getModuleName` is not idempotent |
| Names.NestedUrlRemapped | injector.js:185-196 | `http://h/http://g/a.js.js` clears to `/http://g/a.js`, and its module name `//http://g/a.js` clears to `/a`: a case where re-mapping changes the name |
| State.Request.constructor | injector.js:76-87 | a new request holds the given `deps` and callback value, is not resolved, and has an empty tree, no deliveries and no rejections |
| Locator.LastIndexOf | injector.js:248 | `lastIndexOf` gives -1 or an index holding the character, with none after it |
| Locator.WithDefaultExt | injector.js:247-251 | the locator with `.js` appended when `lastIndexOf('.') < length - 5`; stated by `DefaultExtCases` |
| Locator.DefaultExtCases | injector.js:247-250 | `.js` is appended exactly when the locator has at least five characters and no `.` among its last five; otherwise the locator is unchanged |
| Locator.ExtOf | injector.js:253-254 | the group of `/\.([a-z]{2,5})$/`, or `None` for `null`; stated by `ExtOfCorrect` |
| Locator.StrategyOf | injector.js:253-264 | the `switch (ext)`: `js` a script, `html` and `json` a text request, any other extension no case, and a `null` match the TypeError of `ext.length` |
| Locator.ExtOfCorrect | injector.js:253-254 | the extension match succeeds exactly when the locator ends in `.` followed by two to five lower-case letters; the group is those letters |
| Locator.DefaultIsScript | injector.js:247-257 | a locator that gets the default extension is loaded as a script |
| Locator.ShortBareNameThrows | injector.js:247-254 | a locator shorter than five characters with no `.` makes `ext.length` throw |
| Tree.FoldLevels | injector.js:82-84 | the `reduce` callback applied level by level, `currentDep.concat(previousDep)`; stated by `FoldLevelsLatestFirst` |
| Tree.Flatten | injector.js:82-84 | `treeDeps.reduce(...)` without an initial value: `None` for the TypeError on an empty tree; stated by `FlattenIsLatestFirst` |
| Tree.FoldLevelsLatestFirst | injector.js:82-84 | the fold puts each later level in front of everything before it |
| Tree.FlattenIsLatestFirst | injector.js:82-84 | `reduce` throws exactly on an empty tree; otherwise it gives the levels concatenated, the latest first |
| Resolve.Resolved | injector.js:125-138 | `allResolved` either answers or exhausts the stack; nothing else is thrown |
| Resolve.ResolvedFrom | injector.js:128-136 | the `while` loop from index `i` either answers or exhausts the stack |
| Resolve.ResolvedFromIff | injector.js:128-136 | the loop gives true exactly when every entry from `i` on is registered with resolving `deps`; it gives false exactly when some entry fails and all before it resolve |
| Resolve.AllResolvedCases | injector.js:125-138 | false for undefined `deps`, true for `[]`; otherwise true or false exactly by the entries, as for the loop |
| Resolve.ResolvedMoreFuel | injector.js:125-138 | once the stack is deep enough to give an answer, a deeper stack gives the same answer |
| Resolve.ResolvedFromMoreFuel | injector.js:128-136 | the same for the loop from index `i` |
| Resolve.ResolvedSameShape | injector.js:129-131 | the answer depends only on the registry's keys, placeholders and `deps`, not on values |
| Resolve.ResolvedFromSameShape | injector.js:128-136 | the same for the loop from index `i` |
| Resolve.ResolvedNewKeys | injector.js:130 | adding names to the registry keeps a resolved list resolved |
| Resolve.ResolvedFromNewKeys | injector.js:128-136 | the same for the loop from index `i` |
| Binder.ArgValues | injector.js:153-155 | `args.map(arg => injector._dependencies[arg].value)`: entry by entry the registered value |
| Binder.Bind | injector.js:141-172 | `bind` keeps the heap well formed, only grows it, and keeps the registry's keys; a returned value is on the heap |
| Binder.BindDeps | injector.js:148-152 | the dependency loop: the same frame, and when it finishes every entry from `i` on is registered |
| Binder.BindSelf | injector.js:153-171 | binding the function itself keeps the heap well formed, only grows it, and keeps the registry's keys; its lookups of the dependencies never fail |
| Binder.BindGrows | injector.js:141-172 | `bind` only adds functions and sets `binded` flags; it keeps the downloads, the registry keys and the `deps`; a registry value changes only to a new function, while an unbound `_metadata` object of that name becomes bound |
| Binder.BindDepsGrows | injector.js:148-152 | the same for the dependency loop from index `i` |
| Binder.BindSelfGrows | injector.js:156-167 | the same for binding one function |
| Binder.BindReturnsNonFunction | injector.js:145-147 | a value that is not a function is returned unchanged, and nothing changes |
| Binder.BindAnonymous | injector.js:168-170 | a function without `_metadata` comes back as a new bound function over the dependencies' values in `args` order, with no properties of its own; the registry stays as the dependency loop left it |
| Binder.BindNamedFirstTime | injector.js:156-167 | the first binding of a named factory stores a new function bound to the old value and the dependency values, carrying its `_metadata` and static properties; it sets `binded` and returns the old value |
| Binder.BindNamedAgain | injector.js:156-158 | once `binded` is set, binding changes nothing and returns the stored value |
| Binder.BoundModuleStays | injector.js:156-167 | a module whose `_metadata` objects are all bound keeps its record through any `bind` |
| Binder.ResolvedBindsWithoutMissingDependency | injector.js:148-155 | when `allResolved(args)` holds, `bind` never looks up a missing record |
| Binder.ResolvedBindDepsWithoutMissingDependency | injector.js:148-152 | the same for the dependency loop from index `i` |
| Define.AnonymousName | injector.js:301-304 | the name of an anonymous module starts with `/` |
| Define.Classify | injector.js:30-61 | the sniffed value is one of the arguments and not undefined or null; a string first argument is the name; otherwise the `_metadata` write throws |
| Define.ClassifyForms | injector.js:31-58 | each documented form of a call is recognised as its own name, deps and value |
| Define.ClassifyThrows | injector.js:59-61 | a call whose value ends up undefined or null throws at the `_metadata` write |
| Define.DefineIn | injector.js:30-67 | a throw changes nothing; otherwise the name gets the record `{deps, value}` whatever it held before, no other key changes, a function value gets a fresh unbound `_metadata` with that name, and the name is returned |
| Define.DefineWith | injector.js:59-66 | registration keeps the heap well formed |
| Resolver.StartFetch | injector.js:265-273 | the placeholder under the module name, and one download appended with the locator given its default extension |
| Resolver.Load | injector.js:100-179 | `_loadDeps` keeps the heap well formed, only grows it, and keeps the request's value |
| Resolver.Each | injector.js:107-123 | the `forEach` walk: the same frame |
| Resolver.Visit | injector.js:108-122 | one entry of the walk keeps the heap well formed, only grows it, and keeps the request's value |
| Resolver.EachVisit | injector.js:107-123 | the walk visits entry `i` (skip a placeholder, load a defined record, fetch an unknown name), stops if that throws, and otherwise goes on from the next entry |
| Resolver.Settle | injector.js:174-178 | the final check: the same frame, and `root.deps` is re-mapped through `_getModuleName` |
| Resolver.LoadProgress | injector.js:100-179 | `_loadDeps` keeps every known record's `deps` and adds only placeholders; each new download is for this request and a name unknown before, one per name; the tree only grows; the callback runs at most once, only on an unresolved request |
| Resolver.LoadAfterEach | injector.js:104-178 | the walk's progress, followed by the final check, is the progress of the whole `_loadDeps` run |
| Resolver.EachProgress | injector.js:107-123 | the same for the walk from entry `i` |
| Resolver.EachLoadProgress | injector.js:109-114 | the same for the walk into a defined record's `deps` |
| Resolver.EachFetchProgress | injector.js:115-122 | the same for the walk that starts a download |
| Resolver.StartFetchProgress | injector.js:265-273 | a placeholder for an unknown name is a step of that kind |
| Resolver.SettleProgress | injector.js:174-178 | the final check changes the world only as `bind` may, and the request only as a delivery may |
| Resolver.SettleAfterProgress | injector.js:174-178 | the final check after a walk keeps the walk's progress |
| Resolver.Callback | injector.js:81-86 | the callback records its call; it fails exactly when the tree is empty or `exec` is not a function; it calls `exec` only on success and changes nothing else |
| Resolver.StrategyOfFetch | injector.js:245-264 | the strategy a download uses, from the locator of its descriptor |
| Resolver.FetchFailed | injector.js:213-233 | the error handlers (a script rejects with `{name: _getModuleName(file)}`, whose record the handler of lines 118-121 deletes; a text download throws a ReferenceError on `e` first): the registry only loses keys and keeps the other records, the heap and `_metadata` objects stay, the download is marked settled, and well-formedness is kept |
| Resolver.Delete | injector.js:119 | `delete injector._dependencies[name]`: exactly that key goes, every other record stays as it was |
| Resolver.ScriptLoaded | injector.js:204-212 | a loaded script keeps the heap well formed, only grows it, and keeps the request's value |
| Resolver.DescriptorValue | injector.js:235 | the first argument of `define(file, ...)`: a string descriptor is a string, a pair is an object |
| Resolver.TextLoaded | injector.js:234-237 | a loaded text download keeps the heap well formed, only grows it, and keeps the request's value |
| Resolver.FetchFailureKeepsDelivery | injector.js:118-121 | a failed download keeps the request's deps, value, tree, `resolved`, callback invocations and `exec()` calls, and adds at most one rejection |
| Resolver.ScriptLoadedStep | injector.js:116-117 | the resolve handler of a loaded script is a request step: the callback runs at most once, only on an unresolved request |
| Resolver.TextLoadedDefines | injector.js:234-237 | once `define(file, response)` has registered a name, the resolve handler runs `_loadDeps` over that record's `deps` |
| Resolver.TextLoadedStep | injector.js:234-237 | the same for a loaded text download |
| Resolver.PairScriptLoadCases | injector.js:204-212 | for a `{name: url}` script, a global that `define` cannot take throws and leaves the request as it was; otherwise the global is registered under the key with no deps and `_loadDeps` runs over them |
| Resolver.Handle | injector.js:116-121 | one download outcome of the request, passed to its handler; an outcome of another request or of a settled download changes nothing |
| Resolver.Run | injector.js:116-121 | the download outcomes in order, keeping the heap well formed |
| Resolver.ReqStepIsAtMostOnce | injector.js:175-177 | a `_loadDeps` step adds at most one delivery |
| Resolver.AtMostOnceTrans | injector.js:175-177 | two steps of at most one delivery each add at most one together, since the first sets `resolved` |
| Resolver.HandleIsAtMostOnce | injector.js:116-121 | every download outcome adds at most one delivery, and only to an unresolved request |
| Resolver.RunDeliversAtMostOnce | injector.js:175-177 | however and in whatever order the downloads settle, the callback runs at most once, only on an unresolved request |
| Resolver.RequireDeliversAtMostOnce | injector.js:71-88 | `require` followed by any download outcomes invokes the callback at most once and calls `exec()` at most once |
| Resolver.PendingIsSkipped | injector.js:111-114 | a placeholder is neither walked into nor fetched again |
| Resolver.DefinedIsWalked | injector.js:109-114 | a defined name has its record's `deps` walked before the walk goes on; a throw there stops it |
| Resolver.UnknownIsFetched | injector.js:115-116 | an unknown name gets its placeholder and download before the walk goes on |
| Resolver.KnownIsNotRefetched | injector.js:108-116 | a name known when `_loadDeps` starts is never downloaded by it |
| Resolver.SettleDeliversOnlyWhenResolved | injector.js:174-178 | the callback runs only on an unresolved request whose re-mapped `deps` resolve, and it gets those names; `bind` then finds every record |
| Resolver.ResolvedRequestStaysQuiet | injector.js:175-177 | a resolved request never gets the callback again |
| Resolver.ScriptFailureDeletesOnlyItsRecord | injector.js:118-121 | a failed script deletes exactly its module's record and rejects with that name; nothing else changes |
| Resolver.TextFailureIsSilent | injector.js:227-233 | a failed text download changes only its settled flag |
| Resolver.ScriptLoadCases | injector.js:204-212 | a loaded script for a string descriptor whose module was not defined throws in the resolve handler; otherwise the walk continues into that record's `deps` |
| Resolver.RetryAfterFailure | injector.js:118-121 | after a failure, the next reference to the name downloads it again |
| Resolver.TextLoadKeepsPlaceholder | injector.js:234-237 | a text module with a bare name `s` is registered under `s`, while the placeholder under `/s` stays |
| Runtime.Injector.constructor | injector.js:18-306 | the function `injector` carries its own properties `_dependencies`, `define` and `require`, and registers itself as an anonymous factory under the running script's name |
| Runtime.Injector.OwnProperties | injector.js:22-71 | the enumerable own properties of `injector`: the registry object and the functions `define` and `require` |
| Runtime.Injector.Define | injector.js:30-67 | `define` updates the registry and heap exactly as `DefineIn` does |
| Runtime.Injector.AllResolved | injector.js:125-138 | the loop with `couldResolve` gives the answer of `Resolved` |
| Runtime.Injector.Bind | injector.js:141-172 | `bind` updates the world and returns exactly what `Binder.Bind` gives |
| Runtime.Injector.BindDependencies | injector.js:148-152 | the `while` loop does what `BindDeps` gives |
| Runtime.Injector.BindFunction | injector.js:153-171 | binding the function itself does what `BindSelf` gives |
| Runtime.Injector.CopyProperties | injector.js:163-165 | the `for-in` copy gives the bound function exactly the factory's properties and changes nothing else |
| Runtime.Injector.ResolveFile | injector.js:241-273 | `_resolveFile` up to the download does what `StartFetch` gives |
| Runtime.Injector.LoadDeps | injector.js:100-179 | `_loadDeps` updates the world and the request exactly as `Load` does |
| Runtime.Injector.EachDep | injector.js:107-123 | the `forEach` loop does what `Each` gives |
| Runtime.Injector.VisitDep | injector.js:108-122 | the `forEach` callback for one entry does what `Visit` gives |
| Runtime.Injector.Deliver | injector.js:174-178 | the final check does what `Settle` gives |
| Runtime.Injector.InvokeCallback | injector.js:81-86 | the callback does what `Callback` gives |
| Runtime.Injector.Require | injector.js:71-88 | `require` builds a fresh request and runs `Load` on it |
| Runtime.Injector.OnFetchError | injector.js:118-121 | a failed download does what `FetchFailed` gives |
| Runtime.Injector.OnScriptLoad | injector.js:204-212 | a loaded script does what `ScriptLoaded` gives |
| Runtime.Injector.OnTextLoad | injector.js:234-237 | a loaded text download does what `TextLoaded` gives |

## Left out

- Browser I/O is not modelled: script elements, `XMLHttpRequest`, `document.currentScript` and `decodeURI`. The script's decoded path is the parameter `path`. The global a non-AMD script leaves is the parameter `global`. A text response is the parameter `text`.
- Promises and their scheduling are not modelled. A download's handlers run when its event method is called. The caller chooses the order in which downloads settle.
- Downloads with any other extension never settle, because the `switch` has no case for them. The model therefore has no event for them.
- Running user code is not modelled. Factories and callback values are heap functions with an opaque code number. The model records that `exec()` was called, but not what the call does.
- `Logger` and `injector.params.Logger` are not modelled, because they only print.
- The `this` argument given to `Function.prototype.bind` is not modelled: `_f.prototype` in one branch, `null` in the other. Only the target and the bound arguments are kept.
- Registry lookups `injector._dependencies[name]` (lines 109, 130, 150, 154, 157) also find inherited `Object.prototype` members, so a key such as `constructor` or `toString` finds a function and `_loadDeps` then throws on its undefined `deps`. The registry is a map of its own keys only, and those lookups find nothing.
- Resolver.Run: it replays the outcomes of one request's downloads. The downloads of other requests also change the registry between these outcomes; `HandleIsAtMostOnce` holds for every world, so delivery stays at most once under such interleaving too, but the run itself does not interleave them.
- `for (var _fKey in _f)` also visits inherited enumerable properties. The model copies the function's own properties only.
- Assigning `_metadata` to a string, number or plain object is not modelled. `bind` only reads `_metadata` from functions, so those writes have no effect on the model.
- Define.Classify: a call with three or more arguments is assumed to pass a string name and an array of descriptors. Other argument types in that form are outside the model.
- Names.ClearName: the `i` flag is modelled as ASCII case folding, and strings are sequences of characters, not UTF-16 code units.
- Resolver.Load: the call stack depth is the `fuel` argument. A cycle, or a chain deeper than the fuel, ends in `StackOverflow`, where a browser's limit would differ.
- Runtime.Injector.Bind: nested `bind` calls use the same `fuel` bound. Their stack overflow is modelled the same way.
- `require`'s third argument `reject` is not modelled as a function. Rejections are recorded in the request's `rejections`.
