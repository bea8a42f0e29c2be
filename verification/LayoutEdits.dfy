// What the tree edits of src/core/layoutnode.cpp change and what they leave alone.

module LayoutEdits {
  import opened Basics
  import opened Layout

  // -------------------------------------------------------- places in the tree

  function Child(node: LayoutNode, side: Position): LayoutNode
    requires node.Split?
  {
    if side.First? then node.first else node.second
  }

  function Opposite(side: Position): Position {
    if side.First? then Second else First
  }

  // The node a path leads to.
  function At(t: LayoutNode, path: seq<Position>): Option<LayoutNode> {
    if path == [] then Some(t)
    else if t.Leaf? then None
    else At(Child(t, path[0]), path[1..])
  }

  // The tree with another node in the place a path leads to; nothing else differs.
  function Graft(t: LayoutNode, path: seq<Position>, node: LayoutNode): LayoutNode {
    if path == [] then node
    else
      match t
      case Leaf(_, _) => t
      case Split(_, _, _, first, second) =>
        if path[0].First? then t.(first := Graft(first, path[1..], node))
        else t.(second := Graft(second, path[1..], node))
  }

  // ----------------------------------------------------------------- splitting

  // The first leaf that shows the target gives way to the new split, and nothing else changes.
  lemma {:induction false} SplitAtWindowExact(t: LayoutNode, target: string, newcomer: LayoutNode, splitId: string,
                                              orientation: Orientation, ratio: real, position: Position)
    requires newcomer.Leaf? && target in Windows(t)
    ensures var path := FindPath(t, target);
      && path.Some?
      && var leaf := At(t, path.value);
         && leaf.Some? && leaf.value.Leaf? && leaf.value.windowId == target
         && SplitAtWindow(t, target, newcomer, splitId, orientation, ratio, position) ==
              Some(Graft(t, path.value, Beside(splitId, orientation, ratio, position, newcomer, leaf.value)))
  {
    if t.Split? {
      SplitAtWindowEffect(t.first, target, newcomer.id, newcomer.windowId, splitId, orientation, ratio, position);
      FindWindowFinds(t.first, target);
      if target in Windows(t.first) {
        SplitAtWindowExact(t.first, target, newcomer, splitId, orientation, ratio, position);
      } else {
        SplitAtWindowExact(t.second, target, newcomer, splitId, orientation, ratio, position);
      }
    }
  }

  lemma {:induction false} SplitAtWindowEffect(t: LayoutNode, target: string, leafId: string, w: string,
                                               splitId: string,
                                             orientation: Orientation, ratio: real, position: Position)
    ensures var result := SplitAtWindow(t, target, Leaf(leafId, w), splitId, orientation, ratio, position);
      && (result.Some? <==> target in Windows(t))
      && (result.Some? ==>
        && Ids(result.value) == Ids(t) + {leafId, splitId}
        && Windows(result.value) == Windows(t) + {w}
        && Handles(result.value) == Handles(t) + {(w, leafId)}
        && (WellFormed(t) && w != "" && w !in Windows(t) && 0.0 < ratio < 1.0
            && leafId != "" && splitId != "" && leafId != splitId && leafId !in Ids(t) && splitId !in Ids(t)
            ==> WellFormed(result.value)))
  {
    if t.Split? {
      SplitAtWindowEffect(t.first, target, leafId, w, splitId, orientation, ratio, position);
      SplitAtWindowEffect(t.second, target, leafId, w, splitId, orientation, ratio, position);
    }
  }

  // The newcomer and its split beside the target, in the order the position asks for.
  ghost function Planted(newcomer: Mark, split: Mark, target: Mark, position: Position): seq<Mark> {
    if position.First? then [newcomer, split, target] else [target, split, newcomer]
  }

  // The newcomer and its split land directly beside the first target leaf; the in-order
  // sequence of all other nodes is untouched.
  lemma {:induction false} SplitAtWindowOrder(t: LayoutNode, target: string, leafId: string, w: string, splitId: string,
                                            orientation: Orientation, ratio: real, position: Position)
    returns (before: seq<Mark>, found: Mark, after: seq<Mark>)
    requires target in Windows(t)
    ensures found.LeafMark? && found.windowId == target
    ensures forall m :: m in before && m.LeafMark? ==> m.windowId != target
    ensures Marks(t) == before + [found] + after
    ensures var result := SplitAtWindow(t, target, Leaf(leafId, w), splitId, orientation, ratio, position);
      && result.Some?
      && Marks(result.value) == before
         + Planted(LeafMark(leafId, w), SplitMark(splitId, orientation, ratio), found, position) + after
  {
    ghost var planted := found => Planted(LeafMark(leafId, w), SplitMark(splitId, orientation, ratio), found, position);
    match t {
      case Leaf(id, _) =>
        before, found, after := [], LeafMark(id, target), [];
      case Split(id, o, r, first, second) =>
        SplitAtWindowEffect(first, target, leafId, w, splitId, orientation, ratio, position);
        if target in Windows(first) {
          var a, m, b := SplitAtWindowOrder(first, target, leafId, w, splitId, orientation, ratio, position);
          before, found, after := a, m, b + [SplitMark(id, o, r)] + Marks(second);
          SpliceRight(a, [m], b, [SplitMark(id, o, r)], Marks(second));
          SpliceRight(a, planted(m), b, [SplitMark(id, o, r)], Marks(second));
        } else {
          var a, m, b := SplitAtWindowOrder(second, target, leafId, w, splitId, orientation, ratio, position);
          before, found, after := Marks(first) + [SplitMark(id, o, r)] + a, m, b;
          MarksShow(first);
          SpliceLeft(Marks(first), [SplitMark(id, o, r)], a, [m], b);
          SpliceLeft(Marks(first), [SplitMark(id, o, r)], a, planted(m), b);
        }
    }
  }

  lemma SpliceRight(a: seq<Mark>, m: seq<Mark>, b: seq<Mark>, s: seq<Mark>, c: seq<Mark>)
    ensures (a + m + b) + s + c == a + m + (b + s + c)
  {
  }

  lemma SpliceLeft(c: seq<Mark>, s: seq<Mark>, a: seq<Mark>, m: seq<Mark>, b: seq<Mark>)
    ensures c + s + (a + m + b) == (c + s + a) + m + b
  {
  }

  lemma {:induction false} RemoveUndoesSplit(t: LayoutNode, target: string, leafId: string, w: string, splitId: string,
                                             orientation: Orientation, ratio: real, position: Position)
    requires target in Windows(t) && w !in Windows(t)
    ensures var result := SplitAtWindow(t, target, Leaf(leafId, w), splitId, orientation, ratio, position);
      result.Some? && RemoveWindow(result.value, w) == RemovedDescendant(leafId, t)
  {
    RemoveWindowEffect(t, w);
    if t.Split? {
      SplitAtWindowEffect(t.first, target, leafId, w, splitId, orientation, ratio, position);
      RemoveWindowEffect(t.first, w);
      if target in Windows(t.first) {
        RemoveUndoesSplit(t.first, target, leafId, w, splitId, orientation, ratio, position);
      } else {
        RemoveUndoesSplit(t.second, target, leafId, w, splitId, orientation, ratio, position);
      }
    }
  }

  // ------------------------------------------------------------------ removing

  lemma {:induction false} RemoveWindowEffect(t: LayoutNode, w: string)
    ensures var result := RemoveWindow(t, w);
      && (result.NotFound? <==> w !in Windows(t))
      && (result.RemoveThisNode? ==> t == Leaf(result.leafId, w))
      && (result.RemovedDescendant? ==>
        && t.Split?
        && Ids(result.rest) <= Ids(t) && result.leafId in Ids(t)
        && Windows(t) == Windows(result.rest) + {w}
        && Handles(t) == Handles(result.rest) + {(w, result.leafId)}
        && (WellFormed(t) ==>
          WellFormed(result.rest) && result.leafId !in Ids(result.rest) && w !in Windows(result.rest)))
  {
    if t.Split? {
      RemoveWindowEffect(t.first, w);
      RemoveWindowEffect(t.second, w);
    }
  }

  // The parent of the first leaf that shows the window gives way to that leaf's sibling, and
  // nothing else changes.
  lemma {:induction false} RemoveWindowExact(t: LayoutNode, w: string)
    returns (path: seq<Position>, side: Position)
    requires RemoveWindow(t, w).RemovedDescendant?
    ensures FindPath(t, w) == Some(path + [side])
    ensures var parent := At(t, path);
      && parent.Some? && parent.value.Split?
      && Child(parent.value, side) == Leaf(RemoveWindow(t, w).leafId, w)
      && RemoveWindow(t, w).rest == Graft(t, path, Child(parent.value, Opposite(side)))
  {
    RemoveWindowEffect(t.first, w);
    RemoveWindowEffect(t.second, w);
    FindWindowFinds(t.first, w);
    side := if w in Windows(t.first) then First else Second;
    var child := Child(t, side);
    path := [];
    if RemoveWindow(child, w).RemovedDescendant? {
      var deeper, last := RemoveWindowExact(child, w);
      path := [side] + deeper;
      assert path + [last] == [side] + (deeper + [last]);
      side := last;
    } else {
      assert FindPath(child, w) == Some([]);
      assert [side] + [] == path + [side];
    }
  }

  // Removal deletes the leaf and the split above it, which are neighbours in the in-order
  // sequence; every other identity, ratio, orientation and their order survive.
  lemma {:induction false} RemoveWindowOrder(t: LayoutNode, w: string)
    returns (before: seq<Mark>, gone: seq<Mark>, after: seq<Mark>)
    requires RemoveWindow(t, w).RemovedDescendant?
    ensures |gone| == 2
    ensures var leaf := LeafMark(RemoveWindow(t, w).leafId, w);
      (gone[0] == leaf && gone[1].SplitMark?) || (gone[1] == leaf && gone[0].SplitMark?)
    ensures Marks(t) == before + gone + after
    ensures Marks(RemoveWindow(t, w).rest) == before + after
  {
    RemoveWindowEffect(t.first, w);
    RemoveWindowEffect(t.second, w);
    var split := [SplitMark(t.id, t.orientation, t.ratio)];
    match RemoveWindow(t.first, w) {
      case RemoveThisNode(leafId) =>
        before, gone, after := [], [LeafMark(leafId, w)] + split, Marks(t.second);
      case RemovedDescendant(leafId, rest) =>
        var a, g, b := RemoveWindowOrder(t.first, w);
        before, gone, after := a, g, b + split + Marks(t.second);
        SpliceRight(a, g, b, split, Marks(t.second));
        SpliceRight(a, [], b, split, Marks(t.second));
        assert a + [] == a;
      case NotFound =>
        if RemoveWindow(t.second, w).RemoveThisNode? {
          before, gone, after := Marks(t.first), split + [LeafMark(RemoveWindow(t, w).leafId, w)], [];
        } else {
          var a, g, b := RemoveWindowOrder(t.second, w);
          before, gone, after := Marks(t.first) + split + a, g, b;
          SpliceLeft(Marks(t.first), split, a, g, b);
          SpliceLeft(Marks(t.first), split, a, [], b);
          assert a + [] == a && Marks(t.first) + split + a + [] == Marks(t.first) + split + a;
        }
    }
  }

  // ------------------------------------------------------------------ payloads

  lemma {:induction false} SetNodeRatioEffect(t: LayoutNode, splitId: string, ratio: real)
    requires WellFormed(t)
    ensures var result := SetNodeRatio(t, splitId, ratio);
      var node := FindNode(t, splitId);
      && (result.Some? <==> node.Some? && node.value.Split?)
      && (result.Some? ==>
        && Ids(result.value) == Ids(t) && Windows(result.value) == Windows(t) && Handles(result.value) == Handles(t)
        && (0.0 < ratio < 1.0 ==> WellFormed(result.value))
        && FindNode(result.value, splitId) == Some(node.value.(ratio := ratio))
        && SetNodeRatio(result.value, splitId, node.value.ratio) == Some(t))
  {
    if t.Split? {
      FindNodeFinds(t.first, splitId);
      FindNodeFinds(t.second, splitId);
      SetNodeRatioEffect(t.first, splitId, ratio);
      if FindNode(t, splitId).Some? && FindNode(t, splitId).value.Split? {
        SetNodeRatioEffect(t.first, splitId, FindNode(t, splitId).value.ratio);
      }
      SetNodeRatioEffect(t.second, splitId, ratio);
    }
  }

  lemma {:induction false} ReplaceWindowIdEffect(t: LayoutNode, outgoing: string, incoming: string)
    requires incoming !in Windows(t)
    ensures var result := ReplaceWindowId(t, outgoing, incoming);
      && (result.Some? <==> outgoing in Windows(t))
      && (result.Some? ==>
        && Ids(result.value) == Ids(t)
        && (WellFormed(t) && incoming != "" ==>
             WellFormed(result.value) && Windows(result.value) == Windows(t) - {outgoing} + {incoming})
        && (forall h :: h in Handles(result.value) ==> h in Handles(t) || h.0 == incoming)
        && ReplaceWindowId(result.value, incoming, outgoing) == Some(t))
  {
    if t.Split? {
      ReplaceWindowIdEffect(t.first, outgoing, incoming);
      ReplaceWindowIdEffect(t.second, outgoing, incoming);
      ReplaceWindowIdMisses(t.first, incoming, outgoing);
    }
  }

  lemma {:induction false} ReplaceWindowIdMisses(t: LayoutNode, outgoing: string, incoming: string)
    ensures outgoing !in Windows(t) ==> ReplaceWindowId(t, outgoing, incoming).None?
  {
    if t.Split? {
      ReplaceWindowIdMisses(t.first, outgoing, incoming);
      ReplaceWindowIdMisses(t.second, outgoing, incoming);
    }
  }

  // ---------------------------------------------------------- exchanging leaves

  function Exchanged(a: string, b: string, w: string): string {
    if w == a then b else if w == b then a else w
  }

  // The tree in which windows `a` and `b` have traded places.
  ghost function Relabel(t: LayoutNode, a: string, b: string): LayoutNode {
    match t
    case Leaf(_, w) => t.(windowId := Exchanged(a, b, w))
    case Split(_, _, _, first, second) => t.(first := Relabel(first, a, b), second := Relabel(second, a, b))
  }

  lemma {:induction false} RelabelEffect(t: LayoutNode, a: string, b: string)
    ensures Ids(Relabel(t, a, b)) == Ids(t)
    ensures forall w :: w in Windows(Relabel(t, a, b)) <==> Exchanged(a, b, w) in Windows(t)
    ensures WellFormed(t) && a != "" && b != "" ==> WellFormed(Relabel(t, a, b))
    ensures Relabel(Relabel(t, a, b), a, b) == t
    ensures forall h :: h in Handles(Relabel(t, a, b)) ==> (Exchanged(a, b, h.0), h.1) in Handles(t)
  {
    if t.Split? {
      RelabelEffect(t.first, a, b);
      RelabelEffect(t.second, a, b);
    }
  }

  // Swapping two payloads through leaf pointers is the simultaneous exchange.
  lemma {:induction false} SwapThroughPaths(t: LayoutNode, a: string, b: string)
    requires a != b && WellFormed(t)
    ensures var p, q := FindPath(t, a), FindPath(t, b);
      var once := if p.Some? then SetWindowAt(t, p.value, b) else t;
      Relabel(t, a, b) == if q.Some? then SetWindowAt(once, q.value, a) else once
  {
    FindWindowFinds(t, a);
    FindWindowFinds(t, b);
    if t.Split? {
      FindWindowFinds(t.first, a);
      FindWindowFinds(t.first, b);
      FindWindowFinds(t.second, a);
      FindWindowFinds(t.second, b);
      SwapThroughPaths(t.first, a, b);
      SwapThroughPaths(t.second, a, b);
    }
  }
}
