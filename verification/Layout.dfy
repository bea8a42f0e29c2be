// The binary split tree of one page: src/core/layoutnode.{h,cpp}.

module Layout {
  import opened Basics

  datatype Orientation = Horizontal | Vertical

  // Which child a newcomer becomes.
  datatype Position = First | Second

  datatype LayoutNode =
    | Leaf(id: string, windowId: string)
    | Split(id: string, orientation: Orientation, ratio: real, first: LayoutNode, second: LayoutNode)

  // ---------------------------------------------------------------- operations

  function FindNode(t: LayoutNode, nodeId: string): Option<LayoutNode> {
    if t.id == nodeId then Some(t)
    else if t.Leaf? then None
    else
      match FindNode(t.first, nodeId)
      case Some(match_) => Some(match_)
      case None => FindNode(t.second, nodeId)
  }

  function FindWindow(t: LayoutNode, windowId: string): Option<LayoutNode> {
    match t
    case Leaf(_, w) => if w == windowId then Some(t) else None
    case Split(_, _, _, first, second) =>
      match FindWindow(first, windowId)
      case Some(match_) => Some(match_)
      case None => FindWindow(second, windowId)
  }

  // The tree in which `existing` shares a new split with `newcomer`.
  function Beside(splitId: string, orientation: Orientation, ratio: real, position: Position,
                  newcomer: LayoutNode, existing: LayoutNode): LayoutNode
  {
    if position.First? then Split(splitId, orientation, ratio, newcomer, existing)
    else Split(splitId, orientation, ratio, existing, newcomer)
  }

  // None when no leaf shows the target, in which case the source leaves the tree alone.
  function SplitAtWindow(t: LayoutNode, target: string, newLeaf: LayoutNode, splitId: string,
                       orientation: Orientation, ratio: real, position: Position): Option<LayoutNode>
  {
    match t
    case Leaf(_, w) =>
      if w != target then None
      else Some(Beside(splitId, orientation, ratio, position, newLeaf, t))
    case Split(_, _, _, first, second) =>
      match SplitAtWindow(first, target, newLeaf, splitId, orientation, ratio, position)
      case Some(first') => Some(t.(first := first'))
      case None =>
        match SplitAtWindow(second, target, newLeaf, splitId, orientation, ratio, position)
        case Some(second') => Some(t.(second := second'))
        case None => None
  }

  function SetNodeRatio(t: LayoutNode, splitId: string, ratio: real): Option<LayoutNode> {
    if t.Split? && t.id == splitId then Some(t.(ratio := ratio))
    else if t.Leaf? then None
    else
      match SetNodeRatio(t.first, splitId, ratio)
      case Some(first') => Some(t.(first := first'))
      case None =>
        match SetNodeRatio(t.second, splitId, ratio)
        case Some(second') => Some(t.(second := second'))
        case None => None
  }

  function ReplaceWindowId(t: LayoutNode, outgoing: string, incoming: string): Option<LayoutNode> {
    match t
    case Leaf(_, w) => if w != outgoing then None else Some(t.(windowId := incoming))
    case Split(_, _, _, first, second) =>
      match ReplaceWindowId(first, outgoing, incoming)
      case Some(first') => Some(t.(first := first'))
      case None =>
        match ReplaceWindowId(second, outgoing, incoming)
        case Some(second') => Some(t.(second := second'))
        case None => None
  }

  datatype Removal =
    | NotFound
    | RemoveThisNode(leafId: string)
    | RemovedDescendant(leafId: string, rest: LayoutNode)

  function RemoveWindow(t: LayoutNode, windowId: string): Removal {
    match t
    case Leaf(id, w) => if w != windowId then NotFound else RemoveThisNode(id)
    case Split(_, _, _, first, second) =>
      match RemoveWindow(first, windowId)
      case RemoveThisNode(leafId) => RemovedDescendant(leafId, second)
      case RemovedDescendant(leafId, rest) => RemovedDescendant(leafId, t.(first := rest))
      case NotFound =>
        match RemoveWindow(second, windowId)
        case RemoveThisNode(leafId) => RemovedDescendant(leafId, first)
        case RemovedDescendant(leafId, rest) => RemovedDescendant(leafId, t.(second := rest))
        case NotFound => NotFound
  }

  // The validator's verdict together with the two identity sets it has filled so far.
  datatype Scan = Scan(valid: bool, structuralIds: set<string>, windowIds: set<string>)

  function Validate(t: LayoutNode, structuralIds: set<string>, windowIds: set<string>): Scan {
    if t.id == "" || t.id in structuralIds then Scan(false, structuralIds, windowIds)
    else
      var ids := structuralIds + {t.id};
      match t
      case Leaf(_, w) =>
        if w == "" || w in windowIds then Scan(false, ids, windowIds)
        else Scan(true, ids, windowIds + {w})
      case Split(_, _, ratio, first, second) =>
        if ratio <= 0.0 || ratio >= 1.0 then Scan(false, ids, windowIds)
        else
          var result := Validate(first, ids, windowIds);
          if !result.valid then result
          else Validate(second, result.structuralIds, result.windowIds)
  }

  // The path of the first leaf showing a window: what the source holds as a node pointer.
  function FindPath(t: LayoutNode, windowId: string): Option<seq<Position>> {
    match t
    case Leaf(_, w) => if w == windowId then Some([]) else None
    case Split(_, _, _, first, second) =>
      match FindPath(first, windowId)
      case Some(path) => Some([First] + path)
      case None =>
        match FindPath(second, windowId)
        case Some(path) => Some([Second] + path)
        case None => None
  }

  // Assignment to the payload of the leaf a path leads to.
  function SetWindowAt(t: LayoutNode, path: seq<Position>, windowId: string): LayoutNode {
    match t
    case Leaf(_, _) => t.(windowId := windowId)
    case Split(_, _, _, first, second) =>
      if path == [] then t
      else if path[0].First? then t.(first := SetWindowAt(first, path[1..], windowId))
      else t.(second := SetWindowAt(second, path[1..], windowId))
  }

  // ------------------------------------------------------------- specification

  ghost function Ids(t: LayoutNode): set<string> {
    match t
    case Leaf(id, _) => {id}
    case Split(id, _, _, first, second) => {id} + Ids(first) + Ids(second)
  }

  ghost function Windows(t: LayoutNode): set<string> {
    match t
    case Leaf(_, w) => {w}
    case Split(_, _, _, first, second) => Windows(first) + Windows(second)
  }

  // Which leaf node shows which window: the handle that persisted state holds.
  ghost function Handles(t: LayoutNode): set<(string, string)> {
    match t
    case Leaf(id, w) => {(w, id)}
    case Split(_, _, _, first, second) => Handles(first) + Handles(second)
  }

  // Identities are non-empty and occur once; ratios lie strictly between 0 and 1.
  ghost predicate WellFormed(t: LayoutNode) {
    && t.id != ""
    && match t
       case Leaf(_, w) => w != ""
       case Split(id, _, ratio, first, second) =>
         && 0.0 < ratio < 1.0
         && WellFormed(first) && WellFormed(second)
         && id !in Ids(first) && id !in Ids(second)
         && Ids(first) !! Ids(second)
         && Windows(first) !! Windows(second)
  }

  // A node without its children.
  datatype Mark = LeafMark(id: string, windowId: string) | SplitMark(id: string, orientation: Orientation, ratio: real)

  // The nodes of a tree in left-to-right (in-order) sequence.
  ghost function Marks(t: LayoutNode): seq<Mark> {
    match t
    case Leaf(id, w) => [LeafMark(id, w)]
    case Split(id, orientation, ratio, first, second) =>
      Marks(first) + [SplitMark(id, orientation, ratio)] + Marks(second)
  }

  function LeafOrder(t: LayoutNode): seq<string> {
    match t
    case Leaf(_, w) => [w]
    case Split(_, _, _, first, second) => LeafOrder(first) + LeafOrder(second)
  }

  // -------------------------------------------------------------------- lookup

  lemma {:induction false} LeafOrderWindows(t: LayoutNode)
    ensures forall w :: w in LeafOrder(t) <==> w in Windows(t)
    ensures LeafOrder(t) != []
  {
    if t.Split? {
      LeafOrderWindows(t.first);
      LeafOrderWindows(t.second);
    }
  }

  lemma {:induction false} FindWindowFinds(t: LayoutNode, w: string)
    ensures FindWindow(t, w).Some? <==> w in Windows(t)
    ensures FindWindow(t, w).Some? <==> FindPath(t, w).Some?
    ensures FindWindow(t, w).Some? ==>
      FindWindow(t, w).value.Leaf? && FindWindow(t, w).value.windowId == w
  {
    if t.Split? {
      FindWindowFinds(t.first, w);
      FindWindowFinds(t.second, w);
    }
  }

  lemma {:induction false} FindNodeFinds(t: LayoutNode, id: string)
    ensures FindNode(t, id).Some? <==> id in Ids(t)
    ensures FindNode(t, id).Some? ==> FindNode(t, id).value.id == id
  {
    if t.Split? {
      FindNodeFinds(t.first, id);
      FindNodeFinds(t.second, id);
    }
  }

  // ---------------------------------------------------------------- validation

  // What the set-threading validator decides about a tree: it is well formed and brings in
  // no identity that the sets handed in already hold.
  lemma {:induction false} ValidateDecides(t: LayoutNode, structuralIds: set<string>, windowIds: set<string>)
    ensures var scan := Validate(t, structuralIds, windowIds);
      && (scan.valid <==> WellFormed(t) && Ids(t) !! structuralIds && Windows(t) !! windowIds)
      && (scan.valid ==> scan.structuralIds == structuralIds + Ids(t))
      && (scan.valid ==> scan.windowIds == windowIds + Windows(t))
  {
    if t.Split? {
      var scan := Validate(t.first, structuralIds + {t.id}, windowIds);
      ValidateDecides(t.first, structuralIds + {t.id}, windowIds);
      ValidateDecides(t.second, scan.structuralIds, scan.windowIds);
    }
  }

  ghost function MarkIds(ms: seq<Mark>): set<string> {
    set m | m in ms :: m.id
  }

  ghost function MarkWindows(ms: seq<Mark>): set<string> {
    set m | m in ms && m.LeafMark? :: m.windowId
  }

  // The same verdict read off the flat list of nodes: no identity is empty or repeated.
  ghost predicate FlatWellFormed(ms: seq<Mark>) {
    && (forall m :: m in ms ==> m.id != "" && if m.LeafMark? then m.windowId != "" else 0.0 < m.ratio < 1.0)
    && (forall i, j :: 0 <= i < j < |ms| ==> ms[i].id != ms[j].id)
    && (forall i, j :: 0 <= i < j < |ms| && ms[i].LeafMark? && ms[j].LeafMark? ==> ms[i].windowId != ms[j].windowId)
  }

  lemma {:induction false} MarksShow(t: LayoutNode)
    ensures Windows(t) == MarkWindows(Marks(t))
    ensures Ids(t) == MarkIds(Marks(t))
  {
    match t {
      case Leaf(id, w) => assert LeafMark(id, w) in Marks(t);
      case Split(id, o, r, first, second) =>
        MarksShow(first);
        MarksShow(second);
        var mark := SplitMark(id, o, r);
        assert forall m :: m in Marks(t) <==> m in Marks(first) || m in Marks(second) || m == mark;
    }
  }

  lemma {:induction false} WellFormedIffFlat(t: LayoutNode)
    ensures WellFormed(t) <==> FlatWellFormed(Marks(t))
  {
    match t {
      case Leaf(id, w) =>
        assert Marks(t)[0] in Marks(t);
      case Split(id, o, r, first, second) =>
        WellFormedIffFlat(first);
        WellFormedIffFlat(second);
        MarksShow(first);
        MarksShow(second);
        var a, s, b := Marks(first), SplitMark(id, o, r), Marks(second);
        if FlatWellFormed(a + [s] + b) {
          FlatParts(a, s, b);
        } else if FlatWellFormed(a) && FlatWellFormed(b) && Joinable(a, s, b) {
          FlatJoins(a, s, b);
        }
    }
  }

  // The flat rules distribute over the two sides of a split.
  ghost predicate Joinable(a: seq<Mark>, s: Mark, b: seq<Mark>)
    requires s.SplitMark?
  {
    && s.id != "" && 0.0 < s.ratio < 1.0
    && s.id !in MarkIds(a) && s.id !in MarkIds(b)
    && MarkIds(a) !! MarkIds(b) && MarkWindows(a) !! MarkWindows(b)
  }

  lemma FlatJoins(a: seq<Mark>, s: Mark, b: seq<Mark>)
    requires s.SplitMark? && Joinable(a, s, b)
    requires FlatWellFormed(a) && FlatWellFormed(b)
    ensures FlatWellFormed(a + [s] + b)
  {
    var all := a + [s] + b;
    MarksApart(a, b);
    assert forall m :: m in all <==> m in a || m in b || m == s;
    forall i, j | 0 <= i < j < |all|
      ensures all[i].id != all[j].id
      ensures all[i].LeafMark? && all[j].LeafMark? ==> all[i].windowId != all[j].windowId
    {
      assert i < |a| ==> all[i] in a && all[i].id in MarkIds(a);
      assert j > |a| ==> all[j] in b && all[j].id in MarkIds(b);
    }
  }

  lemma FlatParts(a: seq<Mark>, s: Mark, b: seq<Mark>)
    requires s.SplitMark?
    requires FlatWellFormed(a + [s] + b)
    ensures FlatWellFormed(a) && FlatWellFormed(b) && Joinable(a, s, b)
  {
    var all := a + [s] + b;
    assert all[|a|] == s;
    assert forall i :: 0 <= i < |a| ==> all[i] == a[i];
    assert forall i :: 0 <= i < |b| ==> all[|a| + 1 + i] == b[i];
    assert forall m :: m in all <==> m in a || m in b || m == s;
    MarksApart(a, b);
  }

  lemma MarksApart(a: seq<Mark>, b: seq<Mark>)
    ensures MarkIds(a) !! MarkIds(b) && MarkWindows(a) !! MarkWindows(b) <==>
      forall m, n :: m in a && n in b ==> m.id != n.id && (m.LeafMark? && n.LeafMark? ==> m.windowId != n.windowId)
  {
    if MarkIds(a) !! MarkIds(b) && MarkWindows(a) !! MarkWindows(b) {
      forall m, n | m in a && n in b
        ensures m.id != n.id && (m.LeafMark? && n.LeafMark? ==> m.windowId != n.windowId)
      {
        assert m.id in MarkIds(a) && n.id in MarkIds(b);
        assert m.LeafMark? ==> m.windowId in MarkWindows(a);
        assert n.LeafMark? ==> n.windowId in MarkWindows(b);
      }
    }
  }
}
