/**
 * The flattening of the locator tree in `require`'s callback (injector.js
 * 82-84): `treeDeps.reduce((previousDep, currentDep) => currentDep.concat(previousDep))`,
 * a left fold without an initial value.
 */
module Tree {

  import opened Wrappers

  /** The fold step by step: `acc` is `previousDep`, each level in turn `currentDep`. */
  function FoldLevels(acc: seq<string>, rest: seq<seq<string>>): seq<string>
    decreases |rest|
  {
    if rest == [] then acc else FoldLevels(rest[0] + acc, rest[1..])
  }

  /** `reduce` on the tree; `None` stands for the TypeError it throws on an empty array. */
  function Flatten(tree: seq<seq<string>>): Option<seq<string>>
  {
    if tree == [] then None else Some(FoldLevels(tree[0], tree[1..]))
  }

  /** Reference reading: the levels concatenated, the latest level first. */
  function LatestFirst(tree: seq<seq<string>>): seq<string>
  {
    if tree == [] then [] else LatestFirst(tree[1..]) + tree[0]
  }

  lemma {:induction false} FoldLevelsLatestFirst(acc: seq<string>, rest: seq<seq<string>>)
    ensures FoldLevels(acc, rest) == LatestFirst(rest) + acc
    decreases |rest|
  {
    if rest != [] {
      FoldLevelsLatestFirst(rest[0] + acc, rest[1..]);
      assert LatestFirst(rest) == LatestFirst(rest[1..]) + rest[0];
    }
  }

  /** The flattened tree puts later levels first; the empty tree throws. */
  lemma {:induction false} FlattenIsLatestFirst(tree: seq<seq<string>>)
    ensures tree == [] <==> Flatten(tree) == None
    ensures tree != [] ==> Flatten(tree) == Some(LatestFirst(tree))
  {
    if tree != [] {
      FoldLevelsLatestFirst(tree[0], tree[1..]);
      assert LatestFirst(tree) == LatestFirst(tree[1..]) + tree[0];
    }
  }
}
