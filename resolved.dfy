/**
 * `allResolved` (injector.js 125-138): the read-only check that a dependency
 * list and everything it transitively needs is registered. Entries are looked
 * up by their raw key, as written in the record. `fuel` is the depth of call
 * stack left; a dependency cycle exhausts it.
 */
module Resolve {
  import opened Wrappers
  import opened Names
  import opened State

  function Resolved(reg: map<string, Record>, ds: Option<seq<Descriptor>>, fuel: nat): (r: Res<bool>)
    ensures r.Exc? ==> r.error == StackOverflow
    decreases fuel, 1, 0
  {
    if fuel == 0 then Exc(StackOverflow)
    else match ds
      case None => Val(false)          // `!!deps` is false for a placeholder
      case Some(s) => ResolvedFrom(reg, s, 0, fuel)
  }

  /** The `while (couldResolve && i < deps.length)` loop from index `i`. */
  function ResolvedFrom(reg: map<string, Record>, s: seq<Descriptor>, i: nat, fuel: nat): (r: Res<bool>)
    requires i <= |s| && fuel > 0
    ensures r.Exc? ==> r.error == StackOverflow
    decreases fuel, 0, |s| - i
  {
    if i == |s| then Val(true)
    else
      var k := RawKey(s[i]);
      if k !in reg then Val(false)
      else match Resolved(reg, DepsOf(reg[k]), fuel - 1)
        case Exc(e) => Exc(e)
        case Val(b) => if b then ResolvedFrom(reg, s, i + 1, fuel) else Val(false)
  }

  /** Entry `i` of `s` is registered and its own `deps` resolve. */
  predicate EntryResolved(reg: map<string, Record>, s: seq<Descriptor>, i: nat, fuel: nat)
    requires i < |s| && fuel > 0
  {
    RawKey(s[i]) in reg && Resolved(reg, DepsOf(reg[RawKey(s[i])]), fuel - 1) == Val(true)
  }

  /** Entry `i` fails without exhausting the stack: missing, or its `deps` do not resolve. */
  predicate EntryFails(reg: map<string, Record>, s: seq<Descriptor>, i: nat, fuel: nat)
    requires i < |s| && fuel > 0
  {
    RawKey(s[i]) !in reg || Resolved(reg, DepsOf(reg[RawKey(s[i])]), fuel - 1) == Val(false)
  }

  lemma {:induction false} ResolvedFromIff(reg: map<string, Record>, s: seq<Descriptor>, i: nat, fuel: nat)
    requires i <= |s| && fuel > 0
    ensures ResolvedFrom(reg, s, i, fuel) == Val(true) <==>
      forall j :: i <= j < |s| ==> EntryResolved(reg, s, j, fuel)
    ensures ResolvedFrom(reg, s, i, fuel) == Val(false) <==>
      exists j :: i <= j < |s| && EntryFails(reg, s, j, fuel) &&
        forall l :: i <= l < j ==> EntryResolved(reg, s, l, fuel)
    decreases |s| - i
  {
    if i < |s| {
      ResolvedFromIff(reg, s, i + 1, fuel);
      var k := RawKey(s[i]);
      if k in reg {
        var sub := Resolved(reg, DepsOf(reg[k]), fuel - 1);
        if sub == Val(true) {
          assert !EntryFails(reg, s, i, fuel);
          if ResolvedFrom(reg, s, i, fuel) == Val(false) {
            var j :| i + 1 <= j < |s| && EntryFails(reg, s, j, fuel) &&
              forall l :: i + 1 <= l < j ==> EntryResolved(reg, s, l, fuel);
            assert forall l :: i <= l < j ==> EntryResolved(reg, s, l, fuel);
          }
          if exists j :: i <= j < |s| && EntryFails(reg, s, j, fuel) &&
               forall l :: i <= l < j ==> EntryResolved(reg, s, l, fuel) {
            var j :| i <= j < |s| && EntryFails(reg, s, j, fuel) &&
              forall l :: i <= l < j ==> EntryResolved(reg, s, l, fuel);
            assert j != i;
          }
        } else if sub == Val(false) {
          assert EntryFails(reg, s, i, fuel) && !EntryResolved(reg, s, i, fuel);
        } else {
          assert !EntryResolved(reg, s, i, fuel) && !EntryFails(reg, s, i, fuel);
        }
      } else {
        assert EntryFails(reg, s, i, fuel) && !EntryResolved(reg, s, i, fuel);
      }
    }
  }

  /**
   * `allResolved(deps)`: false for an undefined list, true for `[]`; otherwise
   * true exactly when every entry is registered and its own `deps` resolve,
   * and false exactly when some entry fails while all entries before it
   * resolve (the loop stops at the first failure).
   */
  lemma AllResolvedCases(reg: map<string, Record>, ds: Option<seq<Descriptor>>, fuel: nat)
    requires fuel > 0
    ensures ds == None ==> Resolved(reg, ds, fuel) == Val(false)
    ensures ds == Some([]) ==> Resolved(reg, ds, fuel) == Val(true)
    ensures ds.Some? ==>
      (Resolved(reg, ds, fuel) == Val(true) <==>
        forall j :: 0 <= j < |ds.value| ==> EntryResolved(reg, ds.value, j, fuel))
    ensures ds.Some? ==>
      (Resolved(reg, ds, fuel) == Val(false) <==>
        exists j :: 0 <= j < |ds.value| && EntryFails(reg, ds.value, j, fuel) &&
          forall l :: 0 <= l < j ==> EntryResolved(reg, ds.value, l, fuel))
  {
    if ds.Some? { ResolvedFromIff(reg, ds.value, 0, fuel); }
  }

  /** With more stack the answer does not change, once there is enough to give one. */
  lemma {:induction false} ResolvedMoreFuel(reg: map<string, Record>, ds: Option<seq<Descriptor>>, fuel: nat, more: nat)
    requires Resolved(reg, ds, fuel).Val? && fuel <= more
    ensures Resolved(reg, ds, more) == Resolved(reg, ds, fuel)
    decreases fuel, 1, 0
  {
    if ds.Some? { ResolvedFromMoreFuel(reg, ds.value, 0, fuel, more); }
  }

  lemma {:induction false} ResolvedFromMoreFuel(reg: map<string, Record>, s: seq<Descriptor>, i: nat, fuel: nat, more: nat)
    requires i <= |s| && 0 < fuel <= more
    requires ResolvedFrom(reg, s, i, fuel).Val?
    ensures ResolvedFrom(reg, s, i, more) == ResolvedFrom(reg, s, i, fuel)
    decreases fuel, 0, |s| - i
  {
    if i < |s| {
      var k := RawKey(s[i]);
      if k in reg {
        ResolvedMoreFuel(reg, DepsOf(reg[k]), fuel - 1, more - 1);
        if Resolved(reg, DepsOf(reg[k]), fuel - 1) == Val(true) {
          ResolvedFromMoreFuel(reg, s, i + 1, fuel, more);
        }
      }
    }
  }

  /** The answer depends only on the keys, the placeholders and the `deps` of the registry. */
  lemma {:induction false} ResolvedSameShape(r1: map<string, Record>, r2: map<string, Record>, ds: Option<seq<Descriptor>>, fuel: nat)
    requires SameShape(r1, r2)
    ensures Resolved(r1, ds, fuel) == Resolved(r2, ds, fuel)
    decreases fuel, 1, 0
  {
    if fuel > 0 && ds.Some? { ResolvedFromSameShape(r1, r2, ds.value, 0, fuel); }
  }

  lemma {:induction false} ResolvedFromSameShape(r1: map<string, Record>, r2: map<string, Record>, s: seq<Descriptor>, i: nat, fuel: nat)
    requires SameShape(r1, r2) && i <= |s| && fuel > 0
    ensures ResolvedFrom(r1, s, i, fuel) == ResolvedFrom(r2, s, i, fuel)
    decreases fuel, 0, |s| - i
  {
    if i < |s| {
      var k := RawKey(s[i]);
      if k in r1 {
        ResolvedSameShape(r1, r2, DepsOf(r1[k]), fuel - 1);
        assert DepsOf(r1[k]) == DepsOf(r2[k]);
      }
      ResolvedFromSameShape(r1, r2, s, i + 1, fuel);
    }
  }

  /** Registering new names (a placeholder, say) keeps a resolved list resolved. */
  lemma {:induction false} ResolvedNewKeys(r1: map<string, Record>, r2: map<string, Record>, ds: Option<seq<Descriptor>>, fuel: nat)
    requires forall k :: k in r1 ==> k in r2 && r2[k] == r1[k]
    requires Resolved(r1, ds, fuel) == Val(true)
    ensures Resolved(r2, ds, fuel) == Val(true)
    decreases fuel, 1, 0
  {
    ResolvedFromNewKeys(r1, r2, ds.value, 0, fuel);
  }

  lemma {:induction false} ResolvedFromNewKeys(r1: map<string, Record>, r2: map<string, Record>, s: seq<Descriptor>, i: nat, fuel: nat)
    requires forall k :: k in r1 ==> k in r2 && r2[k] == r1[k]
    requires i <= |s| && fuel > 0 && ResolvedFrom(r1, s, i, fuel) == Val(true)
    ensures ResolvedFrom(r2, s, i, fuel) == Val(true)
    decreases fuel, 0, |s| - i
  {
    if i < |s| {
      var k := RawKey(s[i]);
      ResolvedNewKeys(r1, r2, DepsOf(r1[k]), fuel - 1);
      ResolvedFromNewKeys(r1, r2, s, i + 1, fuel);
    }
  }
}
