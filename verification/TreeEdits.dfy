/** Edits at the cursor, and what they do to the leaves of the whole tree. */
module TreeEdits {
  import opened Options
  import opened BinTree

  function AssignTop<L, N>(c: Cursor<L, N>, leaf: L): (r: Result<Cursor<L, N>, Cursor<L, N>>) {
    if c.it.Empty? && c.path.Top? then Ok(Cursor(Leaf(leaf), c.path)) else Err(c)
  }

  function AssignNode<L, N>(c: Cursor<L, N>, value: Option<N>): (r: Result<Cursor<L, N>, Cursor<L, N>>) {
    match c.it
    case Node(left, right, _) => Ok(Cursor(Node(left, right, value), c.path))
    case _ => Err(c)
  }

  /** The new cursor, the leaf that was removed, and the data of the node that is gone. */
  datatype Unsplit<L, N> = Unsplit(cursor: Cursor<L, N>, leaf: L, data: Option<N>)

  function UnsplitLeaf<L, N>(c: Cursor<L, N>): (r: Result<Unsplit<L, N>, Cursor<L, N>>) {
    if !c.IsLeaf() || c.IsTop() then Err(c)
    else match c.path
      case Left(right, data, up) => Ok(Unsplit(Cursor(right, up), c.it.leaf, data))
      case Right(left, data, up) => Ok(Unsplit(Cursor(left, up), c.it.leaf, data))
  }

  function SplitNodeInsertLeft<L, N>(c: Cursor<L, N>, leaf: L): (r: Result<Cursor<L, N>, Cursor<L, N>>) {
    match c.it
    case Node(_, _, _) => Ok(Cursor(Node(Leaf(leaf), c.it, None), c.path))
    case _ => Err(c)
  }

  function SplitNodeInsertRight<L, N>(c: Cursor<L, N>, leaf: L): (r: Result<Cursor<L, N>, Cursor<L, N>>) {
    match c.it
    case Node(_, _, _) => Ok(Cursor(Node(c.it, Leaf(leaf), None), c.path))
    case _ => Err(c)
  }

  function SplitLeafInsertRight<L, N>(c: Cursor<L, N>, right: L): (r: Result<Cursor<L, N>, Cursor<L, N>>) {
    match c.it
    case Leaf(left) => Ok(Cursor(Node(Leaf(left), Leaf(right), None), c.path))
    case _ => Err(c)
  }

  function SplitLeafInsertLeft<L, N>(c: Cursor<L, N>, left: L): (r: Result<Cursor<L, N>, Cursor<L, N>>) {
    match c.it
    case Leaf(right) => Ok(Cursor(Node(Leaf(left), Leaf(right), None), c.path))
    case _ => Err(c)
  }

  /** The leaves of the whole tree: those before the position, `focus`, and those after it. */
  function Around<L, N>(c: Cursor<L, N>, focus: seq<L>): seq<L> {
    LeavesBefore(c.path) + focus + LeavesAfter(c.path)
  }

  /** A failed edit gives back the cursor; a successful one leaves these leaves, and stays proper. */
  ghost predicate Edits<L, N>(c: Cursor<L, N>, r: Result<Cursor<L, N>, Cursor<L, N>>, ok: bool, leaves: seq<L>) {
    && (r.Ok? <==> ok)
    && (r.Err? ==> r.error == c)
    && (r.Ok? ==> Leaves(Whole(r.value)) == leaves && (Proper(c) ==> Proper(r.value)))
  }

  lemma LeavesAtCursor<L, N>(c: Cursor<L, N>)
    ensures Leaves(Whole(c)) == Around(c, Leaves(c.it))
  {
    LeavesOfWhole(c.it, c.path);
  }

  /** Splitting a leaf inserts right beside it. */
  lemma LeafSplitsInsertBeside<L, N>(c: Cursor<L, N>, x: L)
    ensures Edits(c, SplitLeafInsertRight(c, x), c.IsLeaf(), Around(c, Leaves(c.it) + [x]))
    ensures Edits(c, SplitLeafInsertLeft(c, x), c.IsLeaf(), Around(c, [x] + Leaves(c.it)))
  {
    assert Full<L, N>(Leaf(x));
    if c.IsLeaf() {
      LeavesAtCursor(SplitLeafInsertRight(c, x).value);
      LeavesAtCursor(SplitLeafInsertLeft(c, x).value);
    }
  }

  /** Splitting a node inserts beside all the leaves of its subtree. */
  lemma NodeSplitsInsertBeside<L, N>(c: Cursor<L, N>, x: L)
    ensures Edits(c, SplitNodeInsertRight(c, x), c.it.Node?, Around(c, Leaves(c.it) + [x]))
    ensures Edits(c, SplitNodeInsertLeft(c, x), c.it.Node?, Around(c, [x] + Leaves(c.it)))
  {
    assert Full<L, N>(Leaf(x));
    if c.it.Node? {
      LeavesAtCursor(SplitNodeInsertRight(c, x).value);
      LeavesAtCursor(SplitNodeInsertLeft(c, x).value);
    }
  }

  /** Only the root of the empty tree can be given its first leaf. */
  lemma AssignTopStartsTree<L, N>(c: Cursor<L, N>, leaf: L)
    ensures Edits(c, AssignTop(c, leaf), Whole(c) == Empty, [leaf])
  {
    FullAllAlong(c.it, c.path);
  }

  /** Node data is stored at the position, over the same two subtrees, and touches neither leaves nor any
      other part of the tree: writing the former data back restores the cursor. */
  lemma AssignNodeKeepsLeaves<L, N>(c: Cursor<L, N>, value: Option<N>)
    ensures Edits(c, AssignNode(c, value), c.it.Node?, Leaves(Whole(c)))
    ensures c.it.Node? ==>
              var stored := AssignNode(c, value).value;
              && stored.path == c.path && stored.it.Node? && stored.it.data == value
              && stored.it.left == c.it.left && stored.it.right == c.it.right
              && AssignNode(stored, c.it.data) == Ok(c)
  {
    LeavesAtCursor(c);
    if c.it.Node? {
      LeavesAtCursor(AssignNode(c, value).value);
    }
  }

  /** Unsplitting removes exactly the current leaf, unless it is the whole tree. */
  lemma UnsplitRemovesLeaf<L, N>(c: Cursor<L, N>)
    ensures UnsplitLeaf(c).Ok? <==> c.IsLeaf() && !c.IsTop()
    ensures UnsplitLeaf(c).Err? ==> UnsplitLeaf(c).error == c
    ensures UnsplitLeaf(c).Ok? ==>
              var u := UnsplitLeaf(c).value;
              && Leaves(Whole(c)) == Around(c, [u.leaf])
              && Leaves(Whole(u.cursor)) == Around(c, [])
              && (Proper(c) ==> Proper(u.cursor))
  {
    LeavesAtCursor(c);
    if c.IsLeaf() && !c.IsTop() {
      var u := UnsplitLeaf(c).value;
      LeavesAtCursor(u.cursor);
      match c.path
      case Left(right, _, up) =>
        assert LeavesBefore(up) + Leaves(right) + LeavesAfter(up) == LeavesBefore(up) + [] + (Leaves(right) + LeavesAfter(up));
      case Right(left, _, up) =>
        assert LeavesBefore(up) + Leaves(left) + LeavesAfter(up) == (LeavesBefore(up) + Leaves(left)) + [] + LeavesAfter(up);
    }
  }

  /** Moving to the new leaf and unsplitting undoes every split. */
  lemma UnsplitUndoesSplits<L, N>(c: Cursor<L, N>, x: L)
    ensures c.IsLeaf() ==>
              && UnsplitLeaf(GoRight(SplitLeafInsertRight(c, x).value).value) == Ok(Unsplit(c, x, None))
              && UnsplitLeaf(GoLeft(SplitLeafInsertLeft(c, x).value).value) == Ok(Unsplit(c, x, None))
    ensures c.it.Node? ==>
              && UnsplitLeaf(GoRight(SplitNodeInsertRight(c, x).value).value) == Ok(Unsplit(c, x, None))
              && UnsplitLeaf(GoLeft(SplitNodeInsertLeft(c, x).value).value) == Ok(Unsplit(c, x, None))
  {
  }

  // ----- any mix of edits and moves -----

  datatype Edit<L, N> =
    | Go(move: Move)
    | Assign(leaf: L)
    | Label(data: Option<N>)
    | InsertLeft(leaf: L)
    | InsertRight(leaf: L)
    | Remove

  /** The cursor an edit leaves behind, whether it succeeded or failed; inserting splits a leaf or a node. */
  function Edited<L, N>(c: Cursor<L, N>, e: Edit<L, N>): Cursor<L, N> {
    match e
    case Go(move) => Moved(c, move)
    case Remove => (match UnsplitLeaf(c) case Ok(u) => u.cursor case Err(d) => d)
    case _ =>
      var r := match e
        case Assign(leaf) => AssignTop(c, leaf)
        case Label(data) => AssignNode(c, data)
        case InsertLeft(leaf) => if c.IsLeaf() then SplitLeafInsertLeft(c, leaf) else SplitNodeInsertLeft(c, leaf)
        case InsertRight(leaf) => if c.IsLeaf() then SplitLeafInsertRight(c, leaf) else SplitNodeInsertRight(c, leaf)
        case _ => Err(c);
      match r case Ok(d) => d case Err(d) => d
  }

  function AfterEdits<L, N>(c: Cursor<L, N>, edits: seq<Edit<L, N>>): Cursor<L, N> {
    if edits == [] then c else Edited(AfterEdits(c, edits[..|edits| - 1]), edits[|edits| - 1])
  }

  lemma EditKeepsProper<L, N>(c: Cursor<L, N>, e: Edit<L, N>)
    requires Proper(c)
    ensures Proper(Edited(c, e))
  {
    match e
    case Go(move) => MoveKeeps(c, move);
    case Remove => UnsplitRemovesLeaf(c);
    case InsertLeft(x) => LeafSplitsInsertBeside(c, x); NodeSplitsInsertBeside(c, x);
    case InsertRight(x) => LeafSplitsInsertBeside(c, x); NodeSplitsInsertBeside(c, x);
    case _ =>
  }

  /** Every tree built from nothing by edits and moves is proper. */
  lemma {:induction false} BuiltIsProper<L, N>(edits: seq<Edit<L, N>>)
    ensures Proper(AfterEdits(CursorOf<L, N>(Empty), edits))
    ensures ProperTree(Whole(AfterEdits(CursorOf<L, N>(Empty), edits)))
  {
    if edits != [] {
      BuiltIsProper(edits[..|edits| - 1]);
      EditKeepsProper(AfterEdits(CursorOf<L, N>(Empty), edits[..|edits| - 1]), edits[|edits| - 1]);
    }
    ProperIsProper(AfterEdits(CursorOf<L, N>(Empty), edits));
  }
}
