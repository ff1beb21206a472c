/** Networks and their upgrade schedules, as far as the other modules depend on them. */
module Networks {
  import opened Options

  /** The highest block height, `u32::MAX / 2`. */
  const MAX_HEIGHT: nat := 0x7FFF_FFFF

  datatype Upgrade =
    | Genesis | BeforeOverwinter | Overwinter | Sapling | Blossom
    | Heartwood | Canopy | Nu5 | Nu6 | Nu6_1 | Nu7

  const LAST_RANK: nat := 10

  /** The position of an upgrade in the order in which upgrades activate. */
  function Rank(u: Upgrade): nat {
    match u
    case Genesis => 0
    case BeforeOverwinter => 1
    case Overwinter => 2
    case Sapling => 3
    case Blossom => 4
    case Heartwood => 5
    case Canopy => 6
    case Nu5 => 7
    case Nu6 => 8
    case Nu6_1 => 9
    case Nu7 => 10
  }

  datatype Activation = Activation(height: nat, upgrade: Upgrade)

  /** A network, reduced to its activation list in ascending height order. */
  datatype Network = Network(activations: seq<Activation>)

  /** Height zero belongs to `Genesis`, and upgrades activate in order at ascending heights. */
  ghost predicate WellFormed(net: Network) {
    var a := net.activations;
    && |a| > 0 && a[0] == Activation(0, Genesis)
    && (forall i, j :: 0 <= i < j < |a| ==> a[i].height < a[j].height)
    && (forall i, j :: 0 <= i < j < |a| ==> Rank(a[i].upgrade) < Rank(a[j].upgrade))
  }

  /** The upgrade of the last activation at or below `height`. */
  function CurrentIn(a: seq<Activation>, height: nat): (u: Upgrade)
    requires |a| > 0 && a[0].height == 0
    ensures exists i :: 0 <= i < |a| && a[i].height <= height && u == a[i].upgrade
  {
    if a[|a| - 1].height <= height then a[|a| - 1].upgrade else CurrentIn(a[..|a| - 1], height)
  }

  function Current(net: Network, height: nat): Upgrade
    requires WellFormed(net)
  {
    CurrentIn(net.activations, height)
  }

  function FindRank(a: seq<Activation>, rank: nat): Option<nat> {
    if a == [] then None
    else if Rank(a[0].upgrade) == rank then Some(a[0].height)
    else FindRank(a[1..], rank)
  }

  /** The height of the upgrade of this rank or, if the network skips it, of the next one. */
  function ActivationHeight(net: Network, rank: nat): Option<nat>
    decreases LAST_RANK + 1 - rank
  {
    if rank > LAST_RANK then None
    else match FindRank(net.activations, rank)
      case Some(h) => Some(h)
      case None => ActivationHeight(net, rank + 1)
  }

  /** `u` is in force at `height`: no later activation of the list is at or below it. */
  lemma {:induction false} CurrentIsLatest(a: seq<Activation>, height: nat, i: nat)
    requires |a| > 0 && a[0].height == 0 && i < |a| && a[i].height <= height
    requires forall i, j :: 0 <= i < j < |a| ==> Rank(a[i].upgrade) < Rank(a[j].upgrade)
    ensures Rank(a[i].upgrade) <= Rank(CurrentIn(a, height))
  {
    if a[|a| - 1].height > height {
      CurrentIsLatest(a[..|a| - 1], height, i);
    }
  }

  lemma {:induction false} CurrentMonotone(net: Network, h: nat, h': nat)
    requires WellFormed(net) && h <= h'
    ensures Rank(Current(net, h)) <= Rank(Current(net, h'))
  {
    var a := net.activations;
    var i :| 0 <= i < |a| && a[i].height <= h && Current(net, h) == a[i].upgrade;
    CurrentIsLatest(a, h', i);
  }

  lemma {:induction false} FindRankFinds(a: seq<Activation>, rank: nat)
    ensures match FindRank(a, rank)
            case Some(h) => exists i :: 0 <= i < |a| && Rank(a[i].upgrade) == rank && a[i].height == h
            case None => forall i :: 0 <= i < |a| ==> Rank(a[i].upgrade) != rank
  {
    if a != [] && Rank(a[0].upgrade) != rank {
      FindRankFinds(a[1..], rank);
      assert forall i :: 0 < i < |a| ==> a[i] == a[1..][i - 1];
    }
  }

  lemma {:induction false} ActivationSplits(net: Network, i: nat, height: nat)
    requires WellFormed(net) && i < |net.activations|
    ensures height < net.activations[i].height
       <==> Rank(Current(net, height)) < Rank(net.activations[i].upgrade)
  {
    var a := net.activations;
    if a[i].height <= height {
      CurrentIsLatest(a, height, i);
    } else {
      var c :| 0 <= c < |a| && a[c].height <= height && Current(net, height) == a[c].upgrade;
      assert c < i;
    }
  }

  /** The activation height of an upgrade splits the heights by the upgrade in force there. */
  lemma {:induction false} ActivationHeightSplits(net: Network, rank: nat, height: nat)
    requires WellFormed(net)
    ensures match ActivationHeight(net, rank)
            case Some(h) => height < h <==> Rank(Current(net, height)) < rank
            case None => Rank(Current(net, height)) < rank
    decreases LAST_RANK + 1 - rank
  {
    if rank <= LAST_RANK {
      var a := net.activations;
      FindRankFinds(a, rank);
      match FindRank(a, rank)
      case Some(h) =>
        var i :| 0 <= i < |a| && Rank(a[i].upgrade) == rank && a[i].height == h;
        ActivationSplits(net, i, height);
      case None =>
        ActivationHeightSplits(net, rank + 1, height);
        var c :| 0 <= c < |a| && a[c].height <= height && Current(net, height) == a[c].upgrade;
    }
  }
}
