/**
 * FileTreeNode: the tri-state check boxes of the file selection tree.
 * Assigning true or false to a node pushes the value down to its children;
 * after any real change the parent recalculates itself from its children,
 * and the recalculation climbs as long as a value changes.
 *
 * The nodes of one tree are the indices 0 .. Size(shape) - 1 of one
 * FileTree object. Parent and Children are fixed index tables (a child's
 * index is always larger than its parent's, which numbers any finite tree);
 * IsChecked and IsExpanded are per-node entries of the object's fields.
 */
module FileTreeModel {
  import opened Wrappers

  /** Children and Parent of every node. */
  datatype Shape = Shape(children: seq<seq<nat>>, parent: seq<Option<nat>>)

  function Size(sh: Shape): nat {
    |sh.parent|
  }

  /** Parent and Children agree, and every child is numbered after its parent. */
  ghost predicate Valid(sh: Shape) {
    |sh.children| == |sh.parent| &&
    (forall m, i :: 0 <= m < |sh.children| && 0 <= i < |sh.children[m]| ==>
      m < sh.children[m][i] < |sh.parent| && sh.parent[sh.children[m][i]] == Some(m)) &&
    (forall c :: 0 <= c < |sh.parent| && sh.parent[c].Some? ==>
      sh.parent[c].value < c && c in sh.children[sh.parent[c].value])
  }

  /** A valid shape and one check-box value per node. */
  ghost predicate Fits(sh: Shape, s: seq<Option<bool>>) {
    Valid(sh) && |s| == Size(sh)
  }

  /** m is n or lies below n. */
  predicate Desc(sh: Shape, m: nat, n: nat)
    requires m < |sh.parent|
    decreases m
  {
    m == n || (sh.parent[m].Some? && sh.parent[m].value < m && Desc(sh, sh.parent[m].value, n))
  }

  // ---------------------------------------------------------------------
  // RecalculateState

  /**
   * The state RecalculateState derives from the children's values: true
   * when all are true (so also when there are none), false when all are
   * false, null otherwise.
   */
  function Aggregate(vs: seq<Option<bool>>): (r: Option<bool>)
    ensures r == Some(true) <==> forall i :: 0 <= i < |vs| ==> vs[i] == Some(true)
    ensures r == Some(false) <==> vs != [] && forall i :: 0 <= i < |vs| ==> vs[i] == Some(false)
  {
    if vs == [] then Some(true)
    else if vs[0].None? then None
    else if |vs| == 1 || Aggregate(vs[1..]) == vs[0] then vs[0]
    else None
  }

  lemma OptionBoolCases(a: Option<bool>)
    ensures a == Some(true) || a == Some(false) || a == None
  {
    match a {
      case None =>
      case Some(b) =>
    }
  }

  function ChildValues(sh: Shape, s: seq<Option<bool>>, m: nat): (vs: seq<Option<bool>>)
    requires Fits(sh, s) && m < Size(sh)
    ensures |vs| == |sh.children[m]|
    ensures forall i :: 0 <= i < |vs| ==> vs[i] == s[sh.children[m][i]]
  {
    seq(|sh.children[m]|, i requires 0 <= i < |sh.children[m]| => s[sh.children[m][i]])
  }

  /** The aggregate of the children of m. */
  function Agg(sh: Shape, s: seq<Option<bool>>, m: nat): Option<bool>
    requires Fits(sh, s) && m < Size(sh)
  {
    Aggregate(ChildValues(sh, s, m))
  }

  /** A node with children holds the aggregate of its children. */
  ghost predicate ConsistentAt(sh: Shape, s: seq<Option<bool>>, m: nat)
    requires Fits(sh, s) && m < Size(sh)
  {
    sh.children[m] != [] ==> s[m] == Agg(sh, s, m)
  }

  /** The invariant of the check-box tree: every node with children holds their aggregate. */
  ghost predicate Consistent(sh: Shape, s: seq<Option<bool>>)
    requires Fits(sh, s)
  {
    forall m :: 0 <= m < Size(sh) ==> ConsistentAt(sh, s, m)
  }

  /** The invariant everywhere except possibly at `skip`. */
  ghost predicate ConsistentExcept(sh: Shape, s: seq<Option<bool>>, skip: Option<nat>)
    requires Fits(sh, s)
  {
    forall m :: 0 <= m < Size(sh) && skip != Some(m) ==> ConsistentAt(sh, s, m)
  }

  /** The invariant at every node strictly below n. */
  ghost predicate ConsistentBelow(sh: Shape, s: seq<Option<bool>>, n: nat)
    requires Fits(sh, s)
  {
    forall m :: 0 <= m < Size(sh) && m != n && Desc(sh, m, n) ==> ConsistentAt(sh, s, m)
  }

  /**
   * RecalculateState as a function of the values: p takes the aggregate of
   * its children, and only when that changed p's value does p's parent
   * recalculate in turn.
   */
  function Recalc(sh: Shape, s: seq<Option<bool>>, p: nat): (r: seq<Option<bool>>)
    requires Fits(sh, s) && p < Size(sh)
    ensures |r| == |s|
    ensures s[p] == Agg(sh, s, p) ==> r == s
    decreases p
  {
    var a := Agg(sh, s, p);
    if s[p] == a then s
    else
      var s1 := s[p := a];
      if sh.parent[p].Some? then Recalc(sh, s1, sh.parent[p].value) else s1
  }

  // ---------------------------------------------------------------------
  // UpdateChildren

  /** One child visited by UpdateChildren: set and descended into only when its value differs. */
  function Push(sh: Shape, s: seq<Option<bool>>, c: nat, v: bool): (r: seq<Option<bool>>)
    requires Fits(sh, s) && c < Size(sh)
    ensures |r| == |s|
    decreases Size(sh) - c, |sh.children[c]| + 1
  {
    if s[c] == Some(v) then s else PushChildren(sh, s[c := Some(v)], c, v, 0)
  }

  /** UpdateChildren(v) on n, from its i-th child on. */
  function PushChildren(sh: Shape, s: seq<Option<bool>>, n: nat, v: bool, i: nat): (r: seq<Option<bool>>)
    requires Fits(sh, s) && n < Size(sh) && i <= |sh.children[n]|
    ensures |r| == |s|
    decreases Size(sh) - n, |sh.children[n]| - i
  {
    if i == |sh.children[n]| then s
    else PushChildren(sh, Push(sh, s, sh.children[n][i], v), n, v, i + 1)
  }

  // ---------------------------------------------------------------------
  // The IsChecked setter

  /**
   * Assigning v to node n: nothing happens when n already holds v;
   * otherwise n takes v, a true or false value is pushed down to the
   * children, and the parent recalculates.
   */
  function Assigned(sh: Shape, s: seq<Option<bool>>, n: nat, v: Option<bool>): (r: seq<Option<bool>>)
    requires Fits(sh, s) && n < Size(sh)
    ensures |r| == |s|
    ensures s[n] == v ==> r == s
  {
    if s[n] == v then s
    else
      var s1 := s[n := v];
      var s2 := if v.Some? then PushChildren(sh, s1, n, v.value, 0) else s1;
      if sh.parent[n].Some? then Recalc(sh, s2, sh.parent[n].value) else s2
  }

  /** Every node in the subtree of n set to v. */
  function SetSub(sh: Shape, s: seq<Option<bool>>, n: nat, v: Option<bool>): (r: seq<Option<bool>>)
    requires Fits(sh, s)
    ensures |r| == |s|
  {
    seq(|s|, m requires 0 <= m < |s| => if Desc(sh, m, n) then v else s[m])
  }

  // ---------------------------------------------------------------------
  // Descendants

  /** Nothing lies above a node with a larger index: indices grow downwards. */
  lemma {:induction false} DescOrder(sh: Shape, m: nat, n: nat)
    requires m < Size(sh)
    ensures Desc(sh, m, n) ==> n <= m
    decreases m
  {
    if m != n && sh.parent[m].Some? && sh.parent[m].value < m {
      DescOrder(sh, sh.parent[m].value, n);
    }
  }

  /** Below a child of n is below n. */
  lemma {:induction false} DescOfChild(sh: Shape, m: nat, n: nat, j: nat)
    requires Valid(sh) && n < Size(sh) && j < |sh.children[n]| && m < Size(sh)
    requires Desc(sh, m, sh.children[n][j])
    ensures Desc(sh, m, n)
    decreases m
  {
    if m != sh.children[n][j] {
      DescOfChild(sh, sh.parent[m].value, n, j);
    }
  }

  /** Strictly below n is below one of n's children. */
  lemma {:induction false} DescChildOnPath(sh: Shape, m: nat, n: nat)
    requires Valid(sh) && n < Size(sh) && m < Size(sh) && Desc(sh, m, n) && m != n
    ensures exists j :: 0 <= j < |sh.children[n]| && Desc(sh, m, sh.children[n][j])
    decreases m
  {
    var q := sh.parent[m].value;
    if q == n {
      var j :| 0 <= j < |sh.children[n]| && sh.children[n][j] == m;
      assert Desc(sh, m, sh.children[n][j]);
    } else {
      DescChildOnPath(sh, q, n);
      var j :| 0 <= j < |sh.children[n]| && Desc(sh, q, sh.children[n][j]);
      assert Desc(sh, m, sh.children[n][j]);
    }
  }

  ghost predicate InChildSubtrees(sh: Shape, m: nat, n: nat, i: nat)
    requires m < Size(sh) && n < |sh.children|
  {
    exists j :: i <= j < |sh.children[n]| && Desc(sh, m, sh.children[n][j])
  }

  // ---------------------------------------------------------------------
  // Aggregates

  /** The aggregate of m depends only on the values of m's children. */
  lemma AggFrame(sh: Shape, s: seq<Option<bool>>, t: seq<Option<bool>>, m: nat)
    requires Fits(sh, s) && Fits(sh, t) && m < Size(sh)
    requires forall i :: 0 <= i < |sh.children[m]| ==> s[sh.children[m][i]] == t[sh.children[m][i]]
    ensures Agg(sh, s, m) == Agg(sh, t, m)
  {
    assert ChildValues(sh, s, m) == ChildValues(sh, t, m);
  }

  /** Children that all hold v aggregate to v. */
  lemma AggUniform(sh: Shape, s: seq<Option<bool>>, m: nat, v: Option<bool>)
    requires Fits(sh, s) && m < Size(sh) && sh.children[m] != []
    requires forall i :: 0 <= i < |sh.children[m]| ==> s[sh.children[m][i]] == v
    ensures Agg(sh, s, m) == v
  {
    var vs := ChildValues(sh, s, m);
    assert vs[0] == v;
    OptionBoolCases(v);
    OptionBoolCases(Agg(sh, s, m));
  }

  /** A point update away from m and from m's children keeps m consistent. */
  lemma UpdateAway(sh: Shape, s: seq<Option<bool>>, p: nat, a: Option<bool>, m: nat)
    requires Fits(sh, s) && p < Size(sh) && m < Size(sh) && m != p && sh.parent[p] != Some(m)
    requires ConsistentAt(sh, s, m)
    ensures ConsistentAt(sh, s[p := a], m)
  {
    AggFrame(sh, s, s[p := a], m);
  }

  // ---------------------------------------------------------------------
  // Pushing a value down

  /** Under a consistent subtree, a root holding v means the whole subtree holds v. */
  lemma {:induction false} UniformBelow(sh: Shape, s: seq<Option<bool>>, c: nat, v: bool, m: nat)
    requires Fits(sh, s) && c < Size(sh) && m < Size(sh) && s[c] == Some(v) && Desc(sh, m, c)
    requires forall k :: 0 <= k < Size(sh) && Desc(sh, k, c) ==> ConsistentAt(sh, s, k)
    ensures s[m] == Some(v)
    decreases m
  {
    if m != c {
      var q := sh.parent[m].value;
      UniformBelow(sh, s, c, v, q);
      var i :| 0 <= i < |sh.children[q]| && sh.children[q][i] == m;
      assert ConsistentAt(sh, s, q);
      assert ChildValues(sh, s, q)[i] == s[m];
    }
  }

  /** Setting a subtree to one value keeps every node consistent except possibly the subtree root's parent. */
  lemma SetSubAt(sh: Shape, s: seq<Option<bool>>, c: nat, v: Option<bool>, m: nat)
    requires Fits(sh, s) && c < Size(sh) && m < Size(sh) && sh.parent[c] != Some(m)
    requires Desc(sh, m, c) || ConsistentAt(sh, s, m)
    ensures ConsistentAt(sh, SetSub(sh, s, c, v), m)
  {
    var t := SetSub(sh, s, c, v);
    if sh.children[m] != [] {
      if Desc(sh, m, c) {
        forall i | 0 <= i < |sh.children[m]| ensures t[sh.children[m][i]] == v {
          assert Desc(sh, sh.children[m][i], c);
        }
        AggUniform(sh, t, m, v);
      } else {
        forall i | 0 <= i < |sh.children[m]| ensures t[sh.children[m][i]] == s[sh.children[m][i]] {
          var k := sh.children[m][i];
          assert !Desc(sh, k, c);
        }
        AggFrame(sh, s, t, m);
      }
    }
  }

  /** UpdateChildren on a node already set to v, whose strict subtree is consistent, sets the whole subtree. */
  lemma {:induction false} PushChildrenAfterSet(sh: Shape, s: seq<Option<bool>>, c: nat, v: bool)
    requires Fits(sh, s) && c < Size(sh) && ConsistentBelow(sh, s, c)
    ensures PushChildren(sh, s[c := Some(v)], c, v, 0) == SetSub(sh, s, c, Some(v))
    decreases Size(sh) - c, |sh.children[c]| + 1
  {
    var s1 := s[c := Some(v)];
    forall m | 0 <= m < Size(sh) && m != c && Desc(sh, m, c) ensures ConsistentAt(sh, s1, m) {
      DescOrder(sh, m, c);
      UpdateAway(sh, s, c, Some(v), m);
    }
    PushChildrenSets(sh, s1, c, v, 0);
    var r := PushChildren(sh, s1, c, v, 0);
    forall m | 0 <= m < Size(sh) ensures r[m] == SetSub(sh, s, c, Some(v))[m] {
      if m == c {
        forall j | 0 <= j < |sh.children[c]| ensures !Desc(sh, c, sh.children[c][j]) {
          DescOrder(sh, c, sh.children[c][j]);
        }
      } else if Desc(sh, m, c) {
        DescChildOnPath(sh, m, c);
      } else {
        forall j | 0 <= j < |sh.children[c]| ensures !Desc(sh, m, sh.children[c][j]) {
          if Desc(sh, m, sh.children[c][j]) {
            DescOfChild(sh, m, c, j);
          }
        }
      }
    }
  }

  /** One visited child: afterwards its whole subtree holds v. */
  lemma {:induction false} PushSets(sh: Shape, s: seq<Option<bool>>, c: nat, v: bool)
    requires Fits(sh, s) && c < Size(sh)
    requires forall k :: 0 <= k < Size(sh) && Desc(sh, k, c) ==> ConsistentAt(sh, s, k)
    ensures Push(sh, s, c, v) == SetSub(sh, s, c, Some(v))
    decreases Size(sh) - c, |sh.children[c]| + 2
  {
    if s[c] == Some(v) {
      forall m | 0 <= m < Size(sh) && Desc(sh, m, c) ensures s[m] == Some(v) {
        UniformBelow(sh, s, c, v, m);
      }
      assert SetSub(sh, s, c, Some(v)) == s;
    } else {
      PushChildrenAfterSet(sh, s, c, v);
    }
  }

  /** UpdateChildren from the i-th child on sets exactly the subtrees of those children. */
  lemma {:induction false} PushChildrenSets(sh: Shape, s: seq<Option<bool>>, n: nat, v: bool, i: nat)
    requires Fits(sh, s) && n < Size(sh) && i <= |sh.children[n]| && ConsistentBelow(sh, s, n)
    ensures forall m :: 0 <= m < Size(sh) ==>
      PushChildren(sh, s, n, v, i)[m] == if InChildSubtrees(sh, m, n, i) then Some(v) else s[m]
    decreases Size(sh) - n, |sh.children[n]| - i
  {
    if i < |sh.children[n]| {
      var c := sh.children[n][i];
      forall k | 0 <= k < Size(sh) && Desc(sh, k, c) ensures ConsistentAt(sh, s, k) {
        DescOfChild(sh, k, n, i);
        DescOrder(sh, k, c);
      }
      PushSets(sh, s, c, v);
      var s1 := SetSub(sh, s, c, Some(v));
      forall m | 0 <= m < Size(sh) && m != n && Desc(sh, m, n) ensures ConsistentAt(sh, s1, m) {
        SetSubAt(sh, s, c, Some(v), m);
      }
      PushChildrenSets(sh, s1, n, v, i + 1);
      var r := PushChildren(sh, s, n, v, i);
      assert r == PushChildren(sh, s1, n, v, i + 1);
      forall m | 0 <= m < Size(sh) ensures r[m] == if InChildSubtrees(sh, m, n, i) then Some(v) else s[m] {
        if Desc(sh, m, c) {
          assert InChildSubtrees(sh, m, n, i);
        } else if InChildSubtrees(sh, m, n, i + 1) {
          var j :| i + 1 <= j < |sh.children[n]| && Desc(sh, m, sh.children[n][j]);
          assert InChildSubtrees(sh, m, n, i);
        }
      }
    }
  }

  // ---------------------------------------------------------------------
  // Recalculating upwards

  /** RecalculateState touches only p and the nodes above it. */
  lemma {:induction false} RecalcFrame(sh: Shape, s: seq<Option<bool>>, p: nat, m: nat)
    requires Fits(sh, s) && p < Size(sh) && m < Size(sh) && !Desc(sh, p, m)
    ensures Recalc(sh, s, p)[m] == s[m]
    decreases p
  {
    var a := Agg(sh, s, p);
    if s[p] != a && sh.parent[p].Some? {
      RecalcFrame(sh, s[p := a], sh.parent[p].value, m);
    }
  }

  /** After RecalculateState, p holds the aggregate of its children. */
  lemma RecalcSetsAggregate(sh: Shape, s: seq<Option<bool>>, p: nat)
    requires Fits(sh, s) && p < Size(sh)
    ensures Recalc(sh, s, p)[p] == Agg(sh, Recalc(sh, s, p), p)
  {
    var r := Recalc(sh, s, p);
    var a := Agg(sh, s, p);
    if s[p] != a {
      if sh.parent[p].Some? {
        var q := sh.parent[p].value;
        DescOrder(sh, q, p);
        RecalcFrame(sh, s[p := a], q, p);
        forall i | 0 <= i < |sh.children[p]| ensures r[sh.children[p][i]] == s[sh.children[p][i]] {
          var k := sh.children[p][i];
          DescOrder(sh, q, k);
          RecalcFrame(sh, s[p := a], q, k);
        }
      }
      AggFrame(sh, s, r, p);
    }
  }

  /** A tree consistent everywhere but at p is consistent after p recalculates. */
  lemma {:induction false} RecalcRestores(sh: Shape, s: seq<Option<bool>>, p: nat)
    requires Fits(sh, s) && p < Size(sh) && ConsistentExcept(sh, s, Some(p))
    ensures Consistent(sh, Recalc(sh, s, p))
    decreases p
  {
    var a := Agg(sh, s, p);
    if s[p] == a {
      assert ConsistentAt(sh, s, p);
    } else {
      var s1 := s[p := a];
      AggFrame(sh, s, s1, p);
      forall m | 0 <= m < Size(sh) && sh.parent[p] != Some(m) ensures ConsistentAt(sh, s1, m) {
        if m != p {
          UpdateAway(sh, s, p, a, m);
        }
      }
      if sh.parent[p].Some? {
        RecalcRestores(sh, s1, sh.parent[p].value);
      }
    }
  }

  // ---------------------------------------------------------------------
  // The IsChecked setter

  /** Assigning true or false to any node of a consistent tree leaves it consistent. */
  lemma AssignPreservesConsistency(sh: Shape, s: seq<Option<bool>>, n: nat, v: bool)
    requires Fits(sh, s) && n < Size(sh) && Consistent(sh, s)
    ensures Consistent(sh, Assigned(sh, s, n, Some(v)))
  {
    if s[n] != Some(v) {
      PushChildrenAfterSet(sh, s, n, v);
      var s2 := SetSub(sh, s, n, Some(v));
      forall m | 0 <= m < Size(sh) && sh.parent[n] != Some(m) ensures ConsistentAt(sh, s2, m) {
        SetSubAt(sh, s, n, Some(v), m);
      }
      if sh.parent[n].Some? {
        RecalcRestores(sh, s2, sh.parent[n].value);
      }
    }
  }

  /** In a consistent tree, assigning true or false gives the node and everything below it that value. */
  lemma AssignSetsSubtree(sh: Shape, s: seq<Option<bool>>, n: nat, v: bool, m: nat)
    requires Fits(sh, s) && n < Size(sh) && Consistent(sh, s) && m < Size(sh) && Desc(sh, m, n)
    ensures Assigned(sh, s, n, Some(v))[m] == Some(v)
  {
    if s[n] == Some(v) {
      UniformBelow(sh, s, n, v, m);
    } else {
      PushChildrenAfterSet(sh, s, n, v);
      if sh.parent[n].Some? {
        var p := sh.parent[n].value;
        DescOrder(sh, p, m);
        DescOrder(sh, m, n);
        RecalcFrame(sh, SetSub(sh, s, n, Some(v)), p, m);
      }
    }
  }

  /**
   * Assigning null changes no child: the node takes null and only the nodes
   * above it may change.
   */
  lemma AssignNullOnlyClimbs(sh: Shape, s: seq<Option<bool>>, n: nat, m: nat)
    requires Fits(sh, s) && n < Size(sh) && m < Size(sh)
    ensures Assigned(sh, s, n, None)[n] == None
    ensures !Desc(sh, n, m) ==> Assigned(sh, s, n, None)[m] == s[m]
  {
    if s[n] != None && sh.parent[n].Some? {
      var p := sh.parent[n].value;
      var s1 := s[n := None];
      DescOrder(sh, p, n);
      RecalcFrame(sh, s1, p, n);
      if !Desc(sh, n, m) {
        assert !Desc(sh, p, m);
        RecalcFrame(sh, s1, p, m);
      }
    }
  }

  /** The starting state, every node unchecked, is consistent. */
  lemma InitialConsistent(sh: Shape)
    requires Valid(sh)
    ensures Consistent(sh, seq(Size(sh), _ => Some(false)))
  {
    var s := seq(Size(sh), _ => Some(false));
    forall m | 0 <= m < Size(sh) ensures ConsistentAt(sh, s, m) {
      if sh.children[m] != [] {
        AggUniform(sh, s, m, Some(false));
      }
    }
  }

  // ---------------------------------------------------------------------
  // The object

  /** The nodes of one tree with their check-box and expansion state. */
  class FileTree {
    const shape: Shape
    var checked: seq<Option<bool>>
    var expanded: seq<bool>

    ghost predicate Ready()
      reads this
    {
      Fits(shape, checked) && |expanded| == Size(shape)
    }

    /** Every node starts unchecked and expanded. */
    constructor (shape: Shape)
      requires Valid(shape)
      ensures this.shape == shape && Ready()
      ensures checked == seq(Size(shape), _ => Some(false))
      ensures expanded == seq(Size(shape), _ => true)
    {
      this.shape := shape;
      checked := seq(Size(shape), _ => Some(false));
      expanded := seq(Size(shape), _ => true);
    }

    /** The IsExpanded setter: only this node's flag changes. */
    method SetExpanded(n: nat, value: bool)
      requires Ready() && n < Size(shape)
      modifies this
      ensures Ready()
      ensures expanded == old(expanded)[n := value] && checked == old(checked)
    {
      expanded := expanded[n := value];
    }

    /** RecalculateState on node p: the loop over the children, then the climb. */
    method RecalculateState(p: nat)
      requires Ready() && p < Size(shape)
      modifies this
      ensures Ready()
      ensures checked == Recalc(shape, old(checked), p) && expanded == old(expanded)
      decreases p
    {
      var cs := shape.children[p];
      ghost var vs := ChildValues(shape, checked, p);
      var allChecked := true;
      var allUnchecked := true;
      var i := 0;
      while i < |cs|
        invariant 0 <= i <= |cs| && checked == old(checked)
        invariant allChecked <==> forall j :: 0 <= j < i ==> vs[j] == Some(true)
        invariant allUnchecked <==> forall j :: 0 <= j < i ==> vs[j] == Some(false)
      {
        match checked[cs[i]] {
          case Some(true) =>
            allUnchecked := false;
          case Some(false) =>
            allChecked := false;
          case None =>
            assert vs[i] == None;
            allChecked := false;
            allUnchecked := false;
            break;
        }
        i := i + 1;
      }
      var newState := if allChecked then Some(true) else if allUnchecked then Some(false) else None;
      OptionBoolCases(Agg(shape, checked, p));
      if checked[p] != newState {
        checked := checked[p := newState];
        if shape.parent[p].Some? {
          RecalculateState(shape.parent[p].value);
        }
      }
    }

    /** UpdateChildren: each child whose value differs is set and descended into. */
    method UpdateChildren(n: nat, state: bool)
      requires Ready() && n < Size(shape)
      modifies this
      ensures Ready()
      ensures checked == PushChildren(shape, old(checked), n, state, 0) && expanded == old(expanded)
      decreases Size(shape) - n
    {
      var cs := shape.children[n];
      for i := 0 to |cs|
        invariant Ready() && expanded == old(expanded)
        invariant PushChildren(shape, checked, n, state, i) == PushChildren(shape, old(checked), n, state, 0)
      {
        var child := cs[i];
        if checked[child] != Some(state) {
          checked := checked[child := Some(state)];
          UpdateChildren(child, state);
        }
      }
    }

    /** The IsChecked setter. */
    method SetChecked(n: nat, value: Option<bool>)
      requires Ready() && n < Size(shape)
      modifies this
      ensures Ready()
      ensures checked == Assigned(shape, old(checked), n, value) && expanded == old(expanded)
      ensures value.Some? && Consistent(shape, old(checked)) ==> Consistent(shape, checked)
    {
      if value.Some? && Consistent(shape, checked) {
        AssignPreservesConsistency(shape, checked, n, value.value);
      }
      if checked[n] != value {
        checked := checked[n := value];
        if value.Some? {
          UpdateChildren(n, value.value);
        }
        if shape.parent[n].Some? {
          RecalculateState(shape.parent[n].value);
        }
      }
    }
  }
}
