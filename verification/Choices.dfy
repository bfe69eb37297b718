/** What a full node does to make room, and what a small node does to grow: the decisions, as functions of numbers. */
module Choices {
  /** A neighbour of a node, if there is one, and how many values it holds. */
  datatype Side = None | Holds(count: nat)

  datatype Room = ToLeft(moved: nat) | ToRight(moved: nat) | Halve

  datatype Repair = JoinLeft | JoinRight | TakeRight(moved: nat) | TakeLeft(moved: nat) | Leave

  function Max(a: int, b: int): (c: int)
    ensures c >= a && c >= b && (c == a || c == b)
  {
    if a < b then b else a
  }

  function Min(a: int, b: int): (c: int)
    ensures c <= a && c <= b && (c == a || c == b)
  {
    if a < b then a else b
  }

  /** How many values an insertion at place i of a full node with room for m moves to the left: 0 if that is not
      done. */
  function MovesLeft(left: Side, i: nat, m: nat): nat
    requires i <= m
  {
    if left.None? || left.count >= m then 0 else
      var k := Max(1, if i < m then (m - left.count) / 2 else m - left.count);
      if i >= k || left.count + k < m then k else 0
  }

  function MovesRight(right: Side, i: nat, m: nat): nat
    requires i <= m
  {
    if right.None? || right.count >= m then 0 else
      var k := Max(1, if i > 0 then (m - right.count) / 2 else m - right.count);
      if i <= m - k || right.count + k < m then k else 0
  }

  /** What makes room for an insertion at place i of a full node. A neighbour helps if it is two short of full, or one
      short with the new value not going to its side. The node is split exactly if no neighbour helps. What is moved
      fills the neighbour up when the new value comes at the far end of the node; otherwise it is half of what the
      neighbour has room for, at least one, so that the two end up within one of each other. */
  function RoomFor(left: Side, right: Side, i: nat, m: nat): (room: Room)
    requires i <= m
    ensures
      var helpsLeft := left.Holds? && (left.count + 1 < m || (left.count + 1 == m && i > 0));
      var helpsRight := right.Holds? && (right.count + 1 < m || (right.count + 1 == m && i < m));
      3 <= m ==>
        match room
        case ToLeft(k) =>
          && helpsLeft && 1 <= k <= m - left.count && (left.count > 0 ==> k < m)
          && (if i == m then left.count + k == m
              else -1 <= (left.count + k) - (m - k) <= 0 || (k == 1 && left.count + 1 == m))
        case ToRight(k) =>
          && !helpsLeft && helpsRight && 1 <= k <= m - right.count && (right.count > 0 ==> k < m)
          && (if i == 0 then right.count + k == m
              else -1 <= (right.count + k) - (m - k) <= 0 || (k == 1 && right.count + 1 == m))
        case Halve => !helpsLeft && !helpsRight
  {
    var l, r := MovesLeft(left, i, m), MovesRight(right, i, m);
    if l > 0 then ToLeft(l) else if r > 0 then ToRight(r) else Halve
  }

  /** A node and a neighbour fit into one, with the value between them. */
  predicate FitsWith(side: Side, count: nat, m: nat) {
    side.Holds? && 1 + side.count + count <= m
  }

  /** The neighbour has more than half of m values, and the erasure was not at the far end of a node that still has
      some. */
  predicate Gives(side: Side, count: nat, far: bool, m: nat) {
    side.Holds? && side.count > m / 2 && (count == 0 || !far)
  }

  /** What is done about a node with count values, fewer than half of m, after an erasure at place i. It is joined
      exactly if it fits with a neighbour; what is taken leaves the neighbour with as many values as the node, or one
      more; and the node is left alone only with a value in it, when the erasure was at its end farther from every
      neighbour. */
  function RepairFor(left: Side, count: nat, right: Side, i: nat, m: nat): (repair: Repair)
    requires count < m / 2 && (left.Holds? || right.Holds?)
    ensures
      var fitsLeft, fitsRight :=
        left.Holds? && 1 + left.count + count <= m, right.Holds? && 1 + count + right.count <= m;
      var givesRight := right.Holds? && right.count > m / 2 && (count == 0 || i > 0);
      var givesLeft := left.Holds? && left.count > m / 2 && (count == 0 || i < count);
      (left.Holds? ==> left.count <= m) && (right.Holds? ==> right.count <= m) ==>
        match repair
        case JoinLeft => fitsLeft
        case JoinRight => !fitsLeft && fitsRight
        case TakeRight(k) =>
          && !fitsLeft && !fitsRight && givesRight
          && 1 <= k && 0 <= (right.count - k) - (count + k) <= 1
        case TakeLeft(k) =>
          && !fitsLeft && !fitsRight && !givesRight && givesLeft
          && 1 <= k && 0 <= (left.count - k) - (count + k) <= 1
        case Leave =>
          && !fitsLeft && !fitsRight && !givesRight && !givesLeft
          && count > 0 && (left.Holds? ==> i >= count) && (right.Holds? ==> i == 0)
  {
    if FitsWith(left, count, m) then JoinLeft
    else if FitsWith(right, count, m) then JoinRight
    else if Gives(right, count, i == 0, m) then TakeRight(Min((right.count - count) / 2, right.count - 1))
    else if Gives(left, count, i >= count, m) then TakeLeft(Min((left.count - count) / 2, left.count - 1))
    else Leave
  }

  lemma Judged(side: Side, count: nat, far: bool, m: nat)
    ensures FitsWith(side, count, m) == (side.Holds? && 1 + side.count + count <= m)
    ensures Gives(side, count, far, m) == (side.Holds? && side.count > m / 2 && (count == 0 || !far))
  {
  }
}
