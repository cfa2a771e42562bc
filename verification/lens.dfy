/**
 * Looking an actor up in the state of a tipset without recomputing that state
 * (lens/util.go): read the state root the child tipset carries, but only once the child
 * is known to sit on top of the requested tipset.
 */
module Lens {
  import opened Outcomes

  /** Two CID lists hold the same CIDs at the same positions. */
  predicate SameCids<C(==)>(c1: seq<C>, c2: seq<C>) {
    |c1| == |c2| && forall i :: 0 <= i < |c1| ==> c1[i] == c2[i]
  }

  /** `cidsEqual`: compare the lengths, then scan position by position, stopping at a difference. */
  method CidsEqual<C(==)>(c1: seq<C>, c2: seq<C>) returns (r: bool)
    ensures r <==> SameCids(c1, c2)
    ensures |c1| != |c2| ==> !r
  {
    if |c1| != |c2| {
      return false;
    }
    var i := 0;
    while i < |c1|
      invariant 0 <= i <= |c1|
      invariant forall j :: 0 <= j < i ==> c1[j] == c2[j]
    {
      if c2[i] != c1[i] {
        return false;
      }
      i := i + 1;
    }
    return true;
  }

  /** Positionwise equality of CID lists is exactly list equality. */
  lemma SameCidsIsEquality<C>(c1: seq<C>, c2: seq<C>)
    ensures SameCids(c1, c2) <==> c1 == c2
  {
    if SameCids(c1, c2) {
      assert c1 == c2;
    }
  }

  /** The comparison is reflexive and symmetric. */
  lemma SameCidsReflexiveSymmetric<C>(c1: seq<C>, c2: seq<C>)
    ensures SameCids(c1, c1)
    ensures SameCids(c1, c2) <==> SameCids(c2, c1)
  {
  }

  /** What the lookup needs of a tipset: height, block CIDs, parents and parent state root. */
  datatype TipSet<C> = TipSet(height: int, cids: seq<C>, parents: seq<C>, parentState: C)

  datatype LookupError =
    | LoadTipSetFailed(message: string)
    | LoadChildFailed(message: string)
    | NotSameChain
    | LoadStateTreeFailed(message: string)
    | ActorNotFound

  /**
   * `efficientStateGetActor`: load the tipset, then the tipset at the next height, and
   * read the actor from the state root the child carries, refusing a child whose
   * parents are not exactly the tipset's blocks. The node calls are parameters.
   */
  function EfficientStateGetActor<C(==), A>(
    actor: string, tsk: seq<C>,
    getTipSet: seq<C> -> Result<TipSet<C>, string>,
    getTipSetByHeight: int -> Result<TipSet<C>, string>,
    loadStateTree: C -> Result<map<string, A>, string>): (r: Result<A, LookupError>)
    ensures r.Ok? ==>
      getTipSet(tsk).Ok? &&
      var ts := getTipSet(tsk).value;
      getTipSetByHeight(ts.height + 1).Ok? &&
      var child := getTipSetByHeight(ts.height + 1).value;
      child.parents == ts.cids &&
      loadStateTree(child.parentState).Ok? && actor in loadStateTree(child.parentState).value &&
      r.value == loadStateTree(child.parentState).value[actor]
    ensures (getTipSet(tsk).Ok? && getTipSetByHeight(getTipSet(tsk).value.height + 1).Ok? &&
             getTipSetByHeight(getTipSet(tsk).value.height + 1).value.parents != getTipSet(tsk).value.cids) ==>
      r == Err(NotSameChain)
  {
    match getTipSet(tsk)
    case Err(e) => Err(LoadTipSetFailed(e))
    case Ok(ts) =>
      match getTipSetByHeight(ts.height + 1)
      case Err(e) => Err(LoadChildFailed(e))
      case Ok(child) =>
        SameCidsIsEquality(child.parents, ts.cids);
        if !SameCids(child.parents, ts.cids) then Err(NotSameChain)
        else
          match loadStateTree(child.parentState)
          case Err(e) => Err(LoadStateTreeFailed(e))
          case Ok(tree) => if actor in tree then Ok(tree[actor]) else Err(ActorNotFound)
  }

  /**
   * `OptimizedStateGetActorWithFallback`: the optimised lookup's actor when it succeeds,
   * and otherwise whatever the fallback lookup returns.
   */
  function OptimizedStateGetActorWithFallback<C(==), A>(
    actor: string, tsk: seq<C>,
    getTipSet: seq<C> -> Result<TipSet<C>, string>,
    getTipSetByHeight: int -> Result<TipSet<C>, string>,
    loadStateTree: C -> Result<map<string, A>, string>,
    fallback: (string, seq<C>) -> Result<A, string>): (r: Result<A, string>)
    ensures EfficientStateGetActor(actor, tsk, getTipSet, getTipSetByHeight, loadStateTree).Err? ==> r == fallback(actor, tsk)
    ensures EfficientStateGetActor(actor, tsk, getTipSet, getTipSetByHeight, loadStateTree).Ok? ==>
      r == Ok(EfficientStateGetActor(actor, tsk, getTipSet, getTipSetByHeight, loadStateTree).value)
  {
    match EfficientStateGetActor(actor, tsk, getTipSet, getTipSetByHeight, loadStateTree)
    case Err(_) => fallback(actor, tsk)
    case Ok(act) => Ok(act)
  }

  /**
   * On a continuous chain whose child state holds the actor, the fallback is never
   * consulted: the result is the actor as recorded in the child's parent state.
   */
  lemma FallbackUnusedOnContinuousChain<C, A>(
    actor: string, tsk: seq<C>,
    getTipSet: seq<C> -> Result<TipSet<C>, string>,
    getTipSetByHeight: int -> Result<TipSet<C>, string>,
    loadStateTree: C -> Result<map<string, A>, string>,
    fallback: (string, seq<C>) -> Result<A, string>,
    ts: TipSet<C>, child: TipSet<C>, tree: map<string, A>)
    requires getTipSet(tsk) == Ok(ts) && getTipSetByHeight(ts.height + 1) == Ok(child)
    requires child.parents == ts.cids && loadStateTree(child.parentState) == Ok(tree) && actor in tree
    ensures OptimizedStateGetActorWithFallback(actor, tsk, getTipSet, getTipSetByHeight, loadStateTree, fallback) == Ok(tree[actor])
  {
    SameCidsIsEquality(child.parents, ts.cids);
  }
}
