/** The walk from a received class towards the root that finds where to deliver: used for
    discovered object instances and for received interactions alike. */
module ClassWalk {
  import opened Util

  /** A class as the walk sees it. `inserted` is its place in the order in which classes
      entered the tree; a class enters after its parent. */
  datatype Link = Link(parent: Option<nat>, inserted: nat, subscribed: bool)

  predicate Tree(links: seq<Link>) {
    forall c | 0 <= c < |links| && links[c].parent.Some? ::
      links[c].parent.value < |links| && links[links[c].parent.value].inserted < links[c].inserted
  }

  function Nearest(links: seq<Link>, c: nat): (r: Option<nat>)
    requires Tree(links) && c < |links|
    ensures r.Some? ==> r.value < |links| && links[r.value].subscribed
    decreases links[c].inserted
  {
    if links[c].subscribed then Some(c)
    else match links[c].parent
      case None => None
      case Some(p) => Nearest(links, p)
  }

  predicate AtOrAbove(links: seq<Link>, a: nat, c: nat)
    requires Tree(links) && c < |links|
    decreases links[c].inserted
  {
    a == c || (links[c].parent.Some? && AtOrAbove(links, a, links[c].parent.value))
  }

  /** Delivery goes to a subscribed ancestor-or-self below which no other one lies, and is
      dropped exactly when there is none. */
  lemma {:induction false} NearestIsNearest(links: seq<Link>, c: nat)
    requires Tree(links) && c < |links|
    ensures match Nearest(links, c)
            case Some(k) =>
              && AtOrAbove(links, k, c)
              && forall a | 0 <= a < |links| && links[a].subscribed && AtOrAbove(links, a, c) :: AtOrAbove(links, a, k)
            case None =>
              forall a | 0 <= a < |links| && AtOrAbove(links, a, c) :: !links[a].subscribed
    decreases links[c].inserted
  {
    if !links[c].subscribed && links[c].parent.Some? {
      NearestIsNearest(links, links[c].parent.value);
    }
  }

  /** The delivery loop for a received interaction: `None` means it is dropped. */
  method DeliverInteraction(links: seq<Link>, received: nat) returns (delivered: Option<nat>)
    requires Tree(links)
    ensures received < |links| ==> delivered == Nearest(links, received)
    ensures received >= |links| ==> delivered == None
  {
    if received >= |links| {
      return None;
    }
    var c: nat := received;
    while !links[c].subscribed
      invariant c < |links|
      invariant Nearest(links, c) == Nearest(links, received)
      decreases links[c].inserted
    {
      var parent := links[c].parent;
      if parent.None? {
        return None;
      }
      c := parent.value;
    }
    return Some(c);
  }
}
