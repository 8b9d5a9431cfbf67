/** A binary tree and its zipper: a cursor is another form of the whole tree. */
module BinTree {
  import opened Options

  datatype Result<T, E> = Ok(value: T) | Err(error: E)

  datatype Tree<L, N> = Empty | Node(left: Tree, right: Tree, data: Option<N>) | Leaf(leaf: L)

  /** The way back to the root, with what was left behind. */
  datatype Path<L, N> =
    | Top
    | Left(right: Tree<L, N>, data: Option<N>, up: Path<L, N>)
    | Right(left: Tree<L, N>, data: Option<N>, up: Path<L, N>)

  datatype Cursor<L, N> = Cursor(it: Tree<L, N>, path: Path<L, N>)
  {
    predicate IsLeaf() {
      it.Leaf?
    }

    predicate IsLeft() {
      path.Left?
    }

    predicate IsRight() {
      path.Right?
    }

    predicate IsTop() {
      path.Top?
    }
  }

  /** Every node has two children that are not empty. */
  predicate Full<L, N>(t: Tree<L, N>) {
    match t
    case Empty => false
    case Leaf(_) => true
    case Node(left, right, _) => Full(left) && Full(right)
  }

  predicate FullPath<L, N>(path: Path<L, N>) {
    match path
    case Top => true
    case Left(right, _, up) => Full(right) && FullPath(up)
    case Right(left, _, up) => Full(left) && FullPath(up)
  }

  predicate ProperTree<L, N>(t: Tree<L, N>) {
    t.Empty? || Full(t)
  }

  predicate Proper<L, N>(c: Cursor<L, N>) {
    FullPath(c.path) && (Full(c.it) || (c.it.Empty? && c.path.Top?))
  }

  /** The tree a cursor stands for. */
  function Zip<L, N>(it: Tree<L, N>, path: Path<L, N>): Tree<L, N>
    decreases path
  {
    match path
    case Top => it
    case Left(right, data, up) => Zip(Node(it, right, data), up)
    case Right(left, data, up) => Zip(Node(left, it, data), up)
  }

  function Whole<L, N>(c: Cursor<L, N>): Tree<L, N> {
    Zip(c.it, c.path)
  }

  function CursorOf<L, N>(t: Tree<L, N>): Cursor<L, N> {
    Cursor(t, Top)
  }

  lemma {:induction false} FullAllAlong<L, N>(it: Tree<L, N>, path: Path<L, N>)
    ensures Full(Zip(it, path)) <==> Full(it) && FullPath(path)
    ensures Zip(it, path).Empty? <==> it.Empty? && path.Top?
    decreases path
  {
    match path
    case Top =>
    case Left(right, data, up) => FullAllAlong(Node(it, right, data), up);
    case Right(left, data, up) => FullAllAlong(Node(left, it, data), up);
  }

  /** A cursor is proper just when the tree it stands for is. */
  lemma ProperIsProper<L, N>(c: Cursor<L, N>)
    ensures Proper(c) <==> ProperTree(Whole(c))
  {
    FullAllAlong(c.it, c.path);
  }

  // ----- leaves -----

  /** The leaves from left to right. */
  function Leaves<L, N>(t: Tree<L, N>): seq<L> {
    match t
    case Empty => []
    case Leaf(l) => [l]
    case Node(left, right, _) => Leaves(left) + Leaves(right)
  }

  function NumLeaves<L, N>(t: Tree<L, N>): (n: nat)
    ensures n == |Leaves(t)|
  {
    match t
    case Empty => 0
    case Leaf(_) => 1
    case Node(left, right, _) => NumLeaves(left) + NumLeaves(right)
  }

  /** The leaves to the left of the position. */
  function LeavesBefore<L, N>(path: Path<L, N>): seq<L> {
    match path
    case Top => []
    case Left(_, _, up) => LeavesBefore(up)
    case Right(left, _, up) => LeavesBefore(up) + Leaves(left)
  }

  /** The leaves to the right of the position. */
  function LeavesAfter<L, N>(path: Path<L, N>): seq<L> {
    match path
    case Top => []
    case Left(right, _, up) => Leaves(right) + LeavesAfter(up)
    case Right(_, _, up) => LeavesAfter(up)
  }

  lemma Regroup<T>(a: seq<T>, b: seq<T>, c: seq<T>, d: seq<T>)
    ensures a + (b + c) + d == a + b + (c + d) == (a + b) + c + d
  {
  }

  lemma {:induction false} LeavesOfWhole<L, N>(it: Tree<L, N>, path: Path<L, N>)
    ensures Leaves(Zip(it, path)) == LeavesBefore(path) + Leaves(it) + LeavesAfter(path)
    decreases path
  {
    match path
    case Top =>
    case Left(right, data, up) =>
      LeavesOfWhole(Node(it, right, data), up);
      Regroup(LeavesBefore(up), Leaves(it), Leaves(right), LeavesAfter(up));
    case Right(left, data, up) =>
      LeavesOfWhole(Node(left, it, data), up);
      Regroup(LeavesBefore(up), Leaves(left), Leaves(it), LeavesAfter(up));
  }

  // ----- moves -----

  function GoLeft<L, N>(c: Cursor<L, N>): (r: Result<Cursor<L, N>, Cursor<L, N>>) {
    match c.it
    case Node(left, right, data) => Ok(Cursor(left, Left(right, data, c.path)))
    case _ => Err(c)
  }

  function GoRight<L, N>(c: Cursor<L, N>): (r: Result<Cursor<L, N>, Cursor<L, N>>) {
    match c.it
    case Node(left, right, data) => Ok(Cursor(right, Right(left, data, c.path)))
    case _ => Err(c)
  }

  function GoUp<L, N>(c: Cursor<L, N>): (r: Result<Cursor<L, N>, Cursor<L, N>>) {
    match c.path
    case Top => Err(c)
    case Right(left, data, up) => Ok(Cursor(Node(left, c.it, data), up))
    case Left(right, data, up) => Ok(Cursor(Node(c.it, right, data), up))
  }

  /** `tree`: up to the top. */
  method TreeOf<L, N>(c: Cursor<L, N>) returns (t: Tree<L, N>)
    ensures t == Whole(c)
  {
    var now := c;
    while true
      invariant Whole(now) == Whole(c)
      decreases now.path
    {
      match GoUp(now) {
        case Ok(up) => now := up;
        case Err(top) => return top.it;
      }
    }
  }

  // ----- the preorder traversal -----

  /** From a finished subtree: up until it is a left child, and over to its sibling. */
  function Climb<L, N>(it: Tree<L, N>, path: Path<L, N>): Result<Cursor<L, N>, Cursor<L, N>>
    decreases path
  {
    match path
    case Top => Err(Cursor(it, Top))
    case Left(right, data, up) => Ok(Cursor(right, Right(it, data, up)))
    case Right(left, data, up) => Climb(Node(left, it, data), up)
  }

  function Next<L, N>(c: Cursor<L, N>): Result<Cursor<L, N>, Cursor<L, N>> {
    if c.IsLeaf() then Climb(c.it, c.path) else GoLeft(c)
  }

  /** `preorder_next` */
  method PreorderNext<L, N>(c: Cursor<L, N>) returns (r: Result<Cursor<L, N>, Cursor<L, N>>)
    ensures r == Next(c)
  {
    if c.IsLeaf() {
      if c.IsLeft() {
        var up := GoUp(c);
        return GoRight(up.value);
      }
      var now := c;
      // while we were on the right
      while true
        invariant !now.IsLeft() && Climb(now.it, now.path) == Next(c)
        decreases now.path
      {
        match GoUp(now) {
          case Ok(up) => now := up;
          case Err(top) => return Err(top);
        }
        if now.IsTop() {
          return Err(now);
        }
        if now.IsLeft() {
          var up := GoUp(now);
          return GoRight(up.value);
        }
      }
    } else {
      return GoLeft(c);
    }
  }

  /** The positions of a subtree in preorder. */
  function Preorder<L, N>(it: Tree<L, N>, path: Path<L, N>): (s: seq<Cursor<L, N>>)
    ensures |s| > 0 && s[0] == Cursor(it, path)
    decreases it
  {
    [Cursor(it, path)] +
    match it
    case Node(left, right, data) => Preorder(left, Left(right, data, path)) + Preorder(right, Right(left, data, path))
    case _ => []
  }

  /** The positions that follow the subtree. */
  function Following<L, N>(it: Tree<L, N>, path: Path<L, N>): seq<Cursor<L, N>>
    decreases path
  {
    match path
    case Top => []
    case Left(right, data, up) => Preorder(right, Right(it, data, up)) + Following(Node(it, right, data), up)
    case Right(left, data, up) => Following(Node(left, it, data), up)
  }

  /** The positions from the cursor on. */
  function Remaining<L, N>(c: Cursor<L, N>): (s: seq<Cursor<L, N>>)
    ensures |s| > 0 && s[0] == c
  {
    Preorder(c.it, c.path) + Following(c.it, c.path)
  }

  lemma {:induction false} ClimbFollows<L, N>(it: Tree<L, N>, path: Path<L, N>)
    ensures match Climb(it, path)
            case Ok(next) => Following(it, path) == Remaining(next)
            case Err(top) => Following(it, path) == [] && top == CursorOf(Zip(it, path))
    decreases path
  {
    match path
    case Right(left, data, up) => ClimbFollows(Node(left, it, data), up);
    case _ =>
  }

  /** Every step goes to the next position of the preorder, and the last one fails at the top. */
  lemma StepFollows<L, N>(c: Cursor<L, N>)
    requires Proper(c)
    ensures match Next(c)
            case Ok(next) => Remaining(c) == [c] + Remaining(next) && Proper(next) && Whole(next) == Whole(c)
            case Err(top) => Remaining(c) == [c] && top == CursorOf(Whole(c))
  {
    match c.it
    case Leaf(_) =>
      ClimbFollows(c.it, c.path);
      ClimbKeeps(c.it, c.path);
    case Empty =>
    case Node(left, right, data) =>
      var l, r := Preorder(left, Left(right, data, c.path)), Preorder(right, Right(left, data, c.path));
      assert [c] + (l + r) + Following(c.it, c.path) == [c] + (l + (r + Following(c.it, c.path)));
  }

  lemma {:induction false} ClimbKeeps<L, N>(it: Tree<L, N>, path: Path<L, N>)
    requires Full(it) && FullPath(path)
    ensures match Climb(it, path)
            case Ok(next) => Proper(next) && Whole(next) == Zip(it, path)
            case Err(top) => Proper(top) && Whole(top) == Zip(it, path)
    decreases path
  {
    match path
    case Right(left, data, up) => ClimbKeeps(Node(left, it, data), up);
    case _ =>
  }

  // ----- every node once -----

  datatype Branch = IsLeft | IsRight

  /** The way from the root to a position. */
  function Address<L, N>(path: Path<L, N>): seq<Branch> {
    match path
    case Top => []
    case Left(_, _, up) => Address(up) + [IsLeft]
    case Right(_, _, up) => Address(up) + [IsRight]
  }

  /** The subtree at the end of a way, if there is one. */
  function Lookup<L, N>(t: Tree<L, N>, way: seq<Branch>): Option<Tree<L, N>> {
    if way == [] then Some(t)
    else match t
      case Node(left, right, _) => Lookup(if way[0] == IsLeft then left else right, way[1..])
      case _ => None
  }

  ghost predicate Unrepeated<L, N>(s: seq<Cursor<L, N>>) {
    forall i, j :: 0 <= i < j < |s| ==> Address(s[i].path) != Address(s[j].path)
  }

  ghost predicate AllBelow<L, N>(s: seq<Cursor<L, N>>, way: seq<Branch>) {
    forall i :: 0 <= i < |s| ==> way <= Address(s[i].path)
  }

  lemma BelowOneSide<L, N>(s: seq<Cursor<L, N>>, way: seq<Branch>, b: Branch)
    requires AllBelow(s, way + [b])
    ensures AllBelow(s, way)
    ensures forall i :: 0 <= i < |s| ==> |Address(s[i].path)| > |way| && Address(s[i].path)[|way|] == b
  {
    forall i | 0 <= i < |s|
      ensures way <= Address(s[i].path) && |Address(s[i].path)| > |way| && Address(s[i].path)[|way|] == b
    {
      assert way + [b] <= Address(s[i].path);
      assert (way + [b])[|way|] == b && (way + [b])[..|way|] == way;
    }
  }

  /** The preorder of a subtree visits no position twice. */
  lemma {:induction false} VisitsOnce<L, N>(it: Tree<L, N>, path: Path<L, N>)
    ensures Unrepeated(Preorder(it, path)) && AllBelow(Preorder(it, path), Address(path))
    decreases it
  {
    match it
    case Node(left, right, data) =>
      VisitsOnce(left, Left(right, data, path));
      VisitsOnce(right, Right(left, data, path));
      BelowOneSide(Preorder(left, Left(right, data, path)), Address(path), IsLeft);
      BelowOneSide(Preorder(right, Right(left, data, path)), Address(path), IsRight);
    case _ =>
  }

  ghost predicate Visits<L, N>(s: seq<Cursor<L, N>>, t: Tree<L, N>, way: seq<Branch>) {
    exists i :: 0 <= i < |s| && s[i].it == t && Address(s[i].path) == way
  }

  lemma VisitsInPart<L, N>(before: seq<Cursor<L, N>>, s: seq<Cursor<L, N>>, after: seq<Cursor<L, N>>, t: Tree<L, N>, way: seq<Branch>)
    requires Visits(s, t, way)
    ensures Visits(before + s + after, t, way)
  {
    var i :| 0 <= i < |s| && s[i].it == t && Address(s[i].path) == way;
    assert (before + s + after)[|before| + i] == s[i];
  }

  /** And every position below it. */
  lemma {:induction false} VisitsAll<L, N>(it: Tree<L, N>, path: Path<L, N>, way: seq<Branch>)
    requires Lookup(it, way).Some?
    ensures Visits(Preorder(it, path), Lookup(it, way).value, Address(path) + way)
    decreases it
  {
    if way == [] {
      assert Preorder(it, path)[0] == Cursor(it, path);
      assert Address(path) + way == Address(path);
    } else {
      var l, r := Preorder(it.left, Left(it.right, it.data, path)), Preorder(it.right, Right(it.left, it.data, path));
      assert [way[0]] + way[1..] == way;
      assert Preorder(it, path) == [Cursor(it, path)] + l + r == ([Cursor(it, path)] + l) + r + [];
      if way[0] == IsLeft {
        VisitsAll(it.left, Left(it.right, it.data, path), way[1..]);
        assert Address(path) + [IsLeft] + way[1..] == Address(path) + way;
        VisitsInPart([Cursor(it, path)], l, r, Lookup(it, way).value, Address(path) + way);
      } else {
        VisitsAll(it.right, Right(it.left, it.data, path), way[1..]);
        assert Address(path) + [IsRight] + way[1..] == Address(path) + way;
        VisitsInPart([Cursor(it, path)] + l, r, [], Lookup(it, way).value, Address(path) + way);
      }
    }
  }

  /** What a caller sees who moves on until the traversal fails. */
  function Visited<L, N>(c: Cursor<L, N>): (s: seq<Cursor<L, N>>)
    requires Proper(c)
    ensures s == Remaining(c)
    decreases |Remaining(c)|
  {
    StepFollows(c);
    match Next(c)
    case Ok(next) => [c] + Visited(next)
    case Err(_) => [c]
  }

  /** From the top of a proper tree the traversal visits every node of it, once. */
  lemma TraversalVisitsAllOnce<L, N>(t: Tree<L, N>)
    requires ProperTree(t)
    ensures Proper(CursorOf(t)) && Visited(CursorOf(t)) == Preorder(t, Top)
    ensures Unrepeated(Visited(CursorOf(t)))
    ensures forall way :: Lookup(t, way).Some? ==> Visits(Visited(CursorOf(t)), Lookup(t, way).value, way)
  {
    VisitsOnce(t, Top);
    forall way | Lookup(t, way).Some? ensures Visits(Preorder(t, Top), Lookup(t, way).value, way) {
      VisitsAll(t, Path<L, N>.Top, way);
      assert Address(Path<L, N>.Top) + way == way;
    }
  }

  // ----- the n-th leaf -----

  function LeafPositions<L, N>(s: seq<Cursor<L, N>>): seq<Cursor<L, N>> {
    if s == [] then [] else (if s[0].IsLeaf() then [s[0]] else []) + LeafPositions(s[1..])
  }

  lemma {:induction false} LeafPositionsConcat<L, N>(a: seq<Cursor<L, N>>, b: seq<Cursor<L, N>>)
    ensures LeafPositions(a + b) == LeafPositions(a) + LeafPositions(b)
  {
    if a == [] {
      assert a + b == b;
    } else {
      LeafPositionsConcat(a[1..], b);
      assert (a + b)[1..] == a[1..] + b && (a + b)[0] == a[0];
      var first := if a[0].IsLeaf() then [a[0]] else [];
      assert first + (LeafPositions(a[1..]) + LeafPositions(b)) == (first + LeafPositions(a[1..])) + LeafPositions(b);
    }
  }

  /** The positions hold these leaves. */
  ghost predicate Hold<L, N>(s: seq<Cursor<L, N>>, leaves: seq<L>) {
    |s| == |leaves| && forall k :: 0 <= k < |s| ==> s[k].it == Leaf(leaves[k])
  }

  lemma HoldBoth<L, N>(a: seq<Cursor<L, N>>, x: seq<L>, b: seq<Cursor<L, N>>, y: seq<L>)
    requires Hold(LeafPositions(a), x) && Hold(LeafPositions(b), y)
    ensures Hold(LeafPositions(a + b), x + y)
  {
    LeafPositionsConcat(a, b);
    hide LeafPositions;
  }

  lemma OnePosition<L, N>(c: Cursor<L, N>)
    ensures LeafPositions([c]) == if c.IsLeaf() then [c] else []
  {
    assert [c][1..] == [];
  }

  lemma {:induction false} LeavesOfPreorder<L, N>(it: Tree<L, N>, path: Path<L, N>)
    ensures Hold(LeafPositions(Preorder(it, path)), Leaves(it))
    decreases it
  {
    OnePosition(Cursor(it, path));
    match it
    case Node(left, right, data) =>
      var l, r := Preorder(left, Left(right, data, path)), Preorder(right, Right(left, data, path));
      LeavesOfPreorder(left, Left(right, data, path));
      LeavesOfPreorder(right, Right(left, data, path));
      assert Preorder(it, path) == [Cursor(it, path)] + (l + r) && [] + Leaves(it) == Leaves(left) + Leaves(right);
      hide Preorder, LeafPositions, Leaves;
      HoldBoth(l, Leaves(left), r, Leaves(right));
      HoldBoth([Cursor(it, path)], [], l + r, Leaves(it));
    case _ =>
      assert Preorder(it, path) == [Cursor(it, path)];
  }

  lemma {:induction false} LeavesOfFollowing<L, N>(it: Tree<L, N>, path: Path<L, N>)
    ensures Hold(LeafPositions(Following(it, path)), LeavesAfter(path))
    decreases path
  {
    match path
    case Top =>
    case Left(right, data, up) =>
      LeavesOfPreorder(right, Right(it, data, up));
      LeavesOfFollowing(Node(it, right, data), up);
      HoldBoth(Preorder(right, Right(it, data, up)), Leaves(right), Following(Node(it, right, data), up), LeavesAfter(up));
    case Right(left, data, up) => LeavesOfFollowing(Node(left, it, data), up);
  }

  /** What `go_to_nth_leaf` comes to. */
  function NthLeaf<L, N>(c: Cursor<L, N>, n: nat): Result<Cursor<L, N>, Cursor<L, N>> {
    var ahead := LeafPositions(Remaining(c));
    if n < |ahead| then Ok(ahead[n]) else Err(CursorOf(Whole(c)))
  }

  /** `go_to_nth_leaf` */
  method GoToNthLeaf<L, N>(c: Cursor<L, N>, n: nat) returns (r: Result<Cursor<L, N>, Cursor<L, N>>)
    requires Proper(c)
    ensures r == NthLeaf(c, n)
  {
    var now, next := c, 0;
    ghost var passed: seq<Cursor<L, N>> := [];
    ghost var ahead := LeafPositions(Remaining(c));
    assert [] + ahead == ahead;
    hide Remaining, LeafPositions, Next, Proper, Zip;
    while true
      invariant Proper(now) && Whole(now) == Whole(c) && |passed| == next <= n
      invariant ahead == passed + LeafPositions(Remaining(now))
      decreases |Remaining(now)|
    {
      StepFollows(now);
      LeafStep(now);
      ghost var rest := match Next(now) case Ok(following) => LeafPositions(Remaining(following)) case Err(_) => [];
      if now.IsLeaf() {
        assert ahead == passed + ([now] + rest) == (passed + [now]) + rest;
        if next == n {
          return Ok(now);
        }
        next := next + 1;
        passed := passed + [now];
      }
      r := PreorderNext(now);
      match r {
        case Ok(following) => now := following;
        case Err(_) => return;
      }
    }
  }

  lemma LeafStep<L, N>(c: Cursor<L, N>)
    requires Proper(c)
    ensures var rest := match Next(c) case Ok(next) => LeafPositions(Remaining(next)) case Err(_) => [];
            LeafPositions(Remaining(c)) == if c.IsLeaf() then [c] + rest else rest
  {
    StepFollows(c);
    match Next(c)
    case Ok(next) =>
      assert ([c] + Remaining(next))[1..] == Remaining(next);
    case Err(_) =>
  }

  /** It succeeds exactly when so many leaves are ahead, and lands on the n-th of them. */
  lemma NthLeafIs<L, N>(c: Cursor<L, N>, n: nat)
    ensures NthLeaf(c, n).Ok? <==> n < |Leaves(c.it) + LeavesAfter(c.path)|
    ensures NthLeaf(c, n).Ok? ==> NthLeaf(c, n).value.it == Leaf((Leaves(c.it) + LeavesAfter(c.path))[n])
  {
    LeavesOfPreorder(c.it, c.path);
    LeavesOfFollowing(c.it, c.path);
    HoldBoth(Preorder(c.it, c.path), Leaves(c.it), Following(c.it, c.path), LeavesAfter(c.path));
    hide LeafPositions;
  }

  /** From the top: exactly the leaves of the tree. */
  lemma NthLeafFromTop<L, N>(t: Tree<L, N>, n: nat)
    ensures NthLeaf(CursorOf(t), n).Ok? <==> n < NumLeaves(t)
    ensures NthLeaf(CursorOf(t), n).Ok? ==> NthLeaf(CursorOf(t), n).value.it == Leaf(Leaves(t)[n])
  {
    NthLeafIs(CursorOf(t), n);
    assert Leaves(t) + [] == Leaves(t);
  }

  // ----- the traversal the other way round -----

  function Mirror<L, N>(t: Tree<L, N>): (m: Tree<L, N>) {
    match t
    case Node(left, right, data) => Node(Mirror(right), Mirror(left), data)
    case _ => t
  }

  function MirrorPath<L, N>(path: Path<L, N>): Path<L, N> {
    match path
    case Top => Top
    case Left(right, data, up) => Right(Mirror(right), data, MirrorPath(up))
    case Right(left, data, up) => Left(Mirror(left), data, MirrorPath(up))
  }

  function MirrorCursor<L, N>(c: Cursor<L, N>): Cursor<L, N> {
    Cursor(Mirror(c.it), MirrorPath(c.path))
  }

  function MirrorResult<L, N>(r: Result<Cursor<L, N>, Cursor<L, N>>): Result<Cursor<L, N>, Cursor<L, N>> {
    match r
    case Ok(c) => Ok(MirrorCursor(c))
    case Err(c) => Err(MirrorCursor(c))
  }

  lemma {:induction false} MirrorTwice<L, N>(t: Tree<L, N>)
    ensures Mirror(Mirror(t)) == t
  {
    match t
    case Node(left, right, _) =>
      MirrorTwice(left);
      MirrorTwice(right);
    case _ =>
  }

  lemma {:induction false} MirrorPathTwice<L, N>(path: Path<L, N>)
    ensures MirrorPath(MirrorPath(path)) == path
  {
    match path
    case Top =>
    case Left(right, _, up) =>
      MirrorTwice(right);
      MirrorPathTwice(up);
    case Right(left, _, up) =>
      MirrorTwice(left);
      MirrorPathTwice(up);
  }

  lemma MirrorCursorTwice<L, N>(c: Cursor<L, N>)
    ensures MirrorCursor(MirrorCursor(c)) == c
  {
    MirrorTwice(c.it);
    MirrorPathTwice(c.path);
  }

  /** `postorder_next`: preorder seen in a mirror (node, right, left). */
  method PostorderNext<L, N>(c: Cursor<L, N>) returns (r: Result<Cursor<L, N>, Cursor<L, N>>)
    ensures r == NextBack(c)
  {
    r := StepBack(c);
    match r {
      case Ok(d) => MirrorCursorTwice(d);
      case Err(d) => MirrorCursorTwice(d);
    }
  }

  // The body of `postorder_next`.
  method StepBack<L, N>(c: Cursor<L, N>) returns (r: Result<Cursor<L, N>, Cursor<L, N>>)
    ensures MirrorResult(r) == Next(MirrorCursor(c))
  {
    if c.IsLeaf() {
      if c.IsRight() {
        var up := GoUp(c);
        return GoLeft(up.value);
      }
      var now := c;
      // while we were on the left
      while true
        invariant !now.IsRight() && Climb(Mirror(now.it), MirrorPath(now.path)) == Next(MirrorCursor(c))
        decreases now.path
      {
        match GoUp(now) {
          case Ok(up) => now := up;
          case Err(top) => return Err(top);
        }
        if now.IsTop() {
          return Err(now);
        }
        if now.IsRight() {
          var up := GoUp(now);
          return GoLeft(up.value);
        }
      }
    } else {
      return GoRight(c);
    }
  }

  /** What `postorder_next` comes to. */
  function NextBack<L, N>(c: Cursor<L, N>): Result<Cursor<L, N>, Cursor<L, N>> {
    MirrorResult(Next(MirrorCursor(c)))
  }

  lemma {:induction false} MirrorIsFull<L, N>(t: Tree<L, N>)
    ensures Full(Mirror(t)) == Full(t)
  {
    match t
    case Node(left, right, _) =>
      MirrorIsFull(left);
      MirrorIsFull(right);
    case _ =>
  }

  lemma {:induction false} MirrorPathIsFull<L, N>(path: Path<L, N>)
    ensures FullPath(MirrorPath(path)) == FullPath(path)
  {
    match path
    case Top =>
    case Left(right, _, up) =>
      MirrorIsFull(right);
      MirrorPathIsFull(up);
    case Right(left, _, up) =>
      MirrorIsFull(left);
      MirrorPathIsFull(up);
  }

  lemma MirrorIsProper<L, N>(c: Cursor<L, N>)
    ensures Proper(MirrorCursor(c)) == Proper(c)
  {
    MirrorIsFull(c.it);
    MirrorPathIsFull(c.path);
  }

  lemma {:induction false} MirrorWhole<L, N>(it: Tree<L, N>, path: Path<L, N>)
    ensures Zip(Mirror(it), MirrorPath(path)) == Mirror(Zip(it, path))
    decreases path
  {
    match path
    case Top =>
    case Left(right, data, up) => MirrorWhole(Node(it, right, data), up);
    case Right(left, data, up) => MirrorWhole(Node(left, it, data), up);
  }

  /** The positions of a subtree in the order node, right, left. */
  function Backorder<L, N>(it: Tree<L, N>, path: Path<L, N>): seq<Cursor<L, N>>
    decreases it
  {
    [Cursor(it, path)] +
    match it
    case Node(left, right, data) => Backorder(right, Right(left, data, path)) + Backorder(left, Left(right, data, path))
    case _ => []
  }

  function MirrorAll<L, N>(s: seq<Cursor<L, N>>): (m: seq<Cursor<L, N>>)
    ensures |m| == |s|
  {
    seq(|s|, i requires 0 <= i < |s| => MirrorCursor(s[i]))
  }

  lemma MirrorAllConcat<L, N>(a: seq<Cursor<L, N>>, b: seq<Cursor<L, N>>)
    ensures MirrorAll(a + b) == MirrorAll(a) + MirrorAll(b)
  {
  }

  lemma {:induction false} BackorderIsMirrored<L, N>(it: Tree<L, N>, path: Path<L, N>)
    ensures Backorder(it, path) == MirrorAll(Preorder(Mirror(it), MirrorPath(path)))
    decreases it
  {
    MirrorCursorTwice(Cursor(it, path));
    match it
    case Node(left, right, data) =>
      var m := Mirror(it);
      var l, r := Preorder(m.left, Left(m.right, data, MirrorPath(path))), Preorder(m.right, Right(m.left, data, MirrorPath(path)));
      BackorderIsMirrored(right, Right(left, data, path));
      BackorderIsMirrored(left, Left(right, data, path));
      MirrorAllConcat(l, r);
      MirrorAllConcat([Cursor(m, MirrorPath(path))], l + r);
    case _ =>
  }

  /** The positions from the cursor on, in that order. */
  function RemainingBack<L, N>(c: Cursor<L, N>): seq<Cursor<L, N>> {
    MirrorAll(Remaining(MirrorCursor(c)))
  }

  lemma BackFromTop<L, N>(t: Tree<L, N>)
    ensures RemainingBack(CursorOf(t)) == Backorder(t, Top)
  {
    BackorderIsMirrored(t, Path<L, N>.Top);
    assert Remaining(MirrorCursor(CursorOf(t))) == Preorder(Mirror(t), Top);
  }

  /** Every step of `postorder_next` goes to the next of these, and the last one fails at the top. */
  lemma BackStepFollows<L, N>(c: Cursor<L, N>)
    requires Proper(c)
    ensures match NextBack(c)
            case Ok(next) => RemainingBack(c) == [c] + RemainingBack(next) && Proper(next) && Whole(next) == Whole(c)
            case Err(top) => RemainingBack(c) == [c] && top == CursorOf(Whole(c))
  {
    var m := MirrorCursor(c);
    MirrorIsProper(c);
    MirrorCursorTwice(c);
    StepFollows(m);
    MirrorWhole(c.it, c.path);
    MirrorTwice(Whole(c));
    hide Remaining, Next, Proper;
    match Next(m)
    case Ok(next) =>
      MirrorCursorTwice(next);
      MirrorIsProper(next);
      MirrorWhole(next.it, next.path);
      MirrorAllConcat([m], Remaining(next));
      assert MirrorAll([m]) == [c];
    case Err(top) =>
      assert MirrorAll([m]) == [c];
  }

  /** What a caller sees who moves on with `postorder_next` until it fails. */
  function VisitedBack<L, N>(c: Cursor<L, N>): (s: seq<Cursor<L, N>>)
    requires Proper(c)
    ensures s == RemainingBack(c)
    decreases |RemainingBack(c)|
  {
    BackStepFollows(c);
    match NextBack(c)
    case Ok(next) => [c] + VisitedBack(next)
    case Err(_) => [c]
  }

  function Flip(way: seq<Branch>): (f: seq<Branch>)
    ensures |f| == |way|
  {
    seq(|way|, i requires 0 <= i < |way| => if way[i] == IsLeft then IsRight else IsLeft)
  }

  lemma FlipTwice(way: seq<Branch>)
    ensures Flip(Flip(way)) == way
  {
  }

  lemma {:induction false} MirrorAddress<L, N>(path: Path<L, N>)
    ensures Address(MirrorPath(path)) == Flip(Address(path))
  {
    match path
    case Top =>
    case Left(_, _, up) => MirrorAddress(up);
    case Right(_, _, up) => MirrorAddress(up);
  }

  lemma {:induction false} MirrorLookup<L, N>(t: Tree<L, N>, way: seq<Branch>)
    requires Lookup(t, way).Some?
    ensures Lookup(Mirror(t), Flip(way)) == Some(Mirror(Lookup(t, way).value))
  {
    if way != [] {
      MirrorLookup(if way[0] == IsLeft then t.left else t.right, way[1..]);
      assert Flip(way)[1..] == Flip(way[1..]);
    }
  }

  lemma MirrorKeepsOnce<L, N>(s: seq<Cursor<L, N>>)
    requires Unrepeated(s)
    ensures Unrepeated(MirrorAll(s))
  {
    var m := MirrorAll(s);
    forall i, j | 0 <= i < j < |m| ensures Address(m[i].path) != Address(m[j].path) {
      MirrorAddress(s[i].path);
      MirrorAddress(s[j].path);
      FlipTwice(Address(s[i].path));
      FlipTwice(Address(s[j].path));
    }
  }

  lemma MirrorKeepsVisits<L, N>(s: seq<Cursor<L, N>>, t: Tree<L, N>, way: seq<Branch>)
    requires Visits(s, Mirror(t), Flip(way))
    ensures Visits(MirrorAll(s), t, way)
  {
    var i :| 0 <= i < |s| && s[i].it == Mirror(t) && Address(s[i].path) == Flip(way);
    MirrorTwice(t);
    MirrorAddress(s[i].path);
    FlipTwice(way);
    assert MirrorAll(s)[i] == MirrorCursor(s[i]);
  }

  /** From the top of a proper tree `postorder_next` too visits every node of it, once. */
  lemma BackTraversalVisitsAllOnce<L, N>(t: Tree<L, N>)
    requires ProperTree(t)
    ensures Proper(CursorOf(t)) && VisitedBack(CursorOf(t)) == Backorder(t, Top)
    ensures Unrepeated(VisitedBack(CursorOf(t)))
    ensures forall way :: Lookup(t, way).Some? ==> Visits(VisitedBack(CursorOf(t)), Lookup(t, way).value, way)
  {
    var m := Mirror(t);
    BackFromTop(t);
    BackorderIsMirrored(t, Path<L, N>.Top);
    VisitsOnce(m, Path<L, N>.Top);
    MirrorKeepsOnce(Preorder(m, Path<L, N>.Top));
    hide Backorder, Preorder, Unrepeated, Visits, Mirror, Lookup;
    forall way | Lookup(t, way).Some? ensures Visits(Backorder(t, Top), Lookup(t, way).value, way) {
      MirrorLookup(t, way);
      VisitsAll(m, Path<L, N>.Top, Flip(way));
      assert Address(Path<L, N>.Top) + Flip(way) == Flip(way);
      MirrorKeepsVisits(Preorder(m, Path<L, N>.Top), Lookup(t, way).value, way);
    }
  }

  /** A postorder as its name has it: left, right, node. */
  function Postorder<L, N>(it: Tree<L, N>, path: Path<L, N>): (s: seq<Cursor<L, N>>)
    decreases it
  {
    (match it
     case Node(left, right, data) => Postorder(left, Left(right, data, path)) + Postorder(right, Right(left, data, path))
     case _ => [])
    + [Cursor(it, path)]
  }

  lemma {:induction false} PostorderStartsBelow<L, N>(it: Tree<L, N>, path: Path<L, N>)
    ensures |Postorder(it, path)| > 0 && !Postorder(it, path)[0].it.Node?
    decreases it
  {
    match it
    case Node(left, right, data) => PostorderStartsBelow(left, Left(right, data, path));
    case _ =>
  }

  /** `postorder_next` visits a tree in postorder if and only if the tree has no node. */
  lemma PostorderOnlyWithoutNodes<L, N>(t: Tree<L, N>)
    requires ProperTree(t)
    ensures Proper(CursorOf(t))
    ensures VisitedBack(CursorOf(t)) == Postorder(t, Top) <==> !t.Node?
  {
    BackFromTop(t);
    PostorderStartsBelow(t, Path<L, N>.Top);
    assert Backorder(t, Path<L, N>.Top)[0] == CursorOf(t);
  }

  // ----- any mix of moves -----

  datatype Move = ToLeft | ToRight | ToTop | ToNext | ToNextBack | ToNthLeaf(n: nat)

  /** The cursor a move leaves behind, whether it succeeded or failed. */
  function Moved<L, N>(c: Cursor<L, N>, move: Move): Cursor<L, N> {
    var r := match move
      case ToLeft => GoLeft(c)
      case ToRight => GoRight(c)
      case ToTop => GoUp(c)
      case ToNext => Next(c)
      case ToNextBack => NextBack(c)
      case ToNthLeaf(n) => NthLeaf(c, n);
    match r case Ok(d) => d case Err(d) => d
  }

  function AfterMoves<L, N>(c: Cursor<L, N>, moves: seq<Move>): Cursor<L, N> {
    if moves == [] then c else Moved(AfterMoves(c, moves[..|moves| - 1]), moves[|moves| - 1])
  }

  lemma NextKeeps<L, N>(c: Cursor<L, N>)
    requires Proper(c)
    ensures match Next(c)
            case Ok(d) => Proper(d) && Whole(d) == Whole(c)
            case Err(d) => Proper(d) && Whole(d) == Whole(c)
  {
    StepFollows(c);
    ProperIsProper(c);
    ProperIsProper(CursorOf(Whole(c)));
  }

  lemma NextBackKeeps<L, N>(c: Cursor<L, N>)
    requires Proper(c)
    ensures Proper(Moved(c, ToNextBack)) && Whole(Moved(c, ToNextBack)) == Whole(c)
  {
    var m := MirrorCursor(c);
    MirrorIsProper(c);
    NextKeeps(m);
    var d := Moved(m, ToNext);
    MirrorIsProper(d);
    MirrorWhole(d.it, d.path);
    MirrorWhole(c.it, c.path);
    MirrorTwice(Whole(c));
  }

  lemma {:induction false} AheadKeeps<L, N>(c: Cursor<L, N>, k: nat)
    requires Proper(c) && k < |Remaining(c)|
    ensures Proper(Remaining(c)[k]) && Whole(Remaining(c)[k]) == Whole(c)
    decreases k
  {
    StepFollows(c);
    if k > 0 {
      AheadKeeps(Next(c).value, k - 1);
    }
  }

  lemma {:induction false} LeafIsPosition<L, N>(s: seq<Cursor<L, N>>, k: nat) returns (i: nat)
    requires k < |LeafPositions(s)|
    ensures i < |s| && LeafPositions(s)[k] == s[i]
  {
    if s[0].IsLeaf() && k == 0 {
      i := 0;
    } else {
      var j := LeafIsPosition(s[1..], if s[0].IsLeaf() then k - 1 else k);
      i := j + 1;
    }
  }

  lemma MoveKeeps<L, N>(c: Cursor<L, N>, move: Move)
    requires Proper(c)
    ensures Proper(Moved(c, move)) && Whole(Moved(c, move)) == Whole(c)
  {
    match move
    case ToNext => NextKeeps(c);
    case ToNextBack => NextBackKeeps(c);
    case ToNthLeaf(n) =>
      if n < |LeafPositions(Remaining(c))| {
        var i := LeafIsPosition(Remaining(c), n);
        AheadKeeps(c, i);
      } else {
        ProperIsProper(c);
        ProperIsProper(CursorOf(Whole(c)));
      }
    case _ =>
  }

  /** Whatever moves are made, failed ones included, the cursor stands for the tree it was made of. */
  lemma {:induction false} MovesKeepTree<L, N>(t: Tree<L, N>, moves: seq<Move>)
    requires ProperTree(t)
    ensures Proper(AfterMoves(CursorOf(t), moves)) && Whole(AfterMoves(CursorOf(t), moves)) == t
  {
    if moves != [] {
      MovesKeepTree(t, moves[..|moves| - 1]);
      MoveKeeps(AfterMoves(CursorOf(t), moves[..|moves| - 1]), moves[|moves| - 1]);
    }
  }
}
