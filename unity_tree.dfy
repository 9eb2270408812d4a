/**
 * UnityCompactConverter, second half: transforms are linked to their
 * parents, and the tree is printed from the root transforms, two spaces of
 * indentation per level, one line per transform naming its GameObject and
 * that object's other components.
 *
 * A printed transform is identified by its chain: the file ids from a root
 * down to it, each linked to the one before. Parent ids are a function of
 * the record, so a chain never repeats an id, is never longer than the
 * store, and is the only chain ending at its last id.
 */
module UnityTree {
  import opened Text
  import opened Wrappers
  import opened Dict
  import opened UnityText
  import opened UnityRecords

  /** A transform whose parent id is empty or "0". */
  predicate IsRoot(o: UnityObject) {
    IsTransformClass(o.classId) && (o.parentTransformId == "" || o.parentTransformId == "0")
  }

  /** A transform whose parent id is p, and p is a real id. */
  predicate LinksTo(o: UnityObject, p: string) {
    IsTransformClass(o.classId) && o.parentTransformId == p && p != "" && p != "0"
  }

  /** The keys, in order, whose records pass the test. */
  function Filter(objs: Dict<UnityObject>, ks: seq<string>, keep: UnityObject -> bool): (r: seq<string>)
    requires forall i :: 0 <= i < |ks| ==> ks[i] in objs.values
  {
    if ks == [] then []
    else
      var c := ks[|ks| - 1];
      Filter(objs, ks[..|ks| - 1], keep) + (if keep(objs.values[c]) then [c] else [])
  }

  /** The kept keys are exactly the listed keys that pass the test. */
  lemma {:induction false} FilterMembers(objs: Dict<UnityObject>, ks: seq<string>, keep: UnityObject -> bool)
    requires forall i :: 0 <= i < |ks| ==> ks[i] in objs.values
    ensures forall c :: c in Filter(objs, ks, keep) <==> c in ks && c in objs.values && keep(objs.values[c])
  {
    if ks != [] {
      var init := ks[..|ks| - 1];
      FilterMembers(objs, init, keep);
      assert ks == init + [ks[|ks| - 1]];
    }
  }

  /** Filtering keeps keys apart. */
  lemma {:induction false} FilterDistinct(objs: Dict<UnityObject>, ks: seq<string>, keep: UnityObject -> bool)
    requires forall i :: 0 <= i < |ks| ==> ks[i] in objs.values
    requires Distinct(ks)
    ensures Distinct(Filter(objs, ks, keep))
  {
    if ks != [] {
      var init := ks[..|ks| - 1];
      var c := ks[|ks| - 1];
      FilterDistinct(objs, init, keep);
      FilterMembers(objs, init, keep);
      assert c !in init;
    }
  }

  lemma KidsMembers(objs: Dict<UnityObject>, chain: seq<string>)
    requires StoreValid(objs)
    ensures forall c :: c in Kids(objs, chain) <==>
      c in objs.values &&
      (if chain == [] then IsRoot(objs.values[c]) else LinksTo(objs.values[c], chain[|chain| - 1]))
  {
    if chain == [] {
      FilterMembers(objs, objs.keys, IsRoot);
    } else {
      FilterMembers(objs, objs.keys, o => LinksTo(o, chain[|chain| - 1]));
    }
  }

  lemma KidsDistinct(objs: Dict<UnityObject>, chain: seq<string>)
    requires StoreValid(objs)
    ensures Distinct(Kids(objs, chain))
  {
    if chain == [] {
      FilterDistinct(objs, objs.keys, IsRoot);
    } else {
      FilterDistinct(objs, objs.keys, o => LinksTo(o, chain[|chain| - 1]));
    }
  }

  /** The root transforms, in store order. */
  function RootsIn(objs: Dict<UnityObject>, ks: seq<string>): seq<string>
    requires forall i :: 0 <= i < |ks| ==> ks[i] in objs.values
  {
    Filter(objs, ks, IsRoot)
  }

  /** The transforms whose parent is p, in store order. */
  function ChildrenIn(objs: Dict<UnityObject>, ks: seq<string>, p: string): seq<string>
    requires forall i :: 0 <= i < |ks| ==> ks[i] in objs.values
  {
    Filter(objs, ks, o => LinksTo(o, p))
  }

  /** Two records alike in everything but their children. */
  predicate SameButChildren(a: UnityObject, b: UnityObject) {
    a.(children := []) == b.(children := [])
  }

  /** Two stores with the same keys whose records differ at most in their children. */
  ghost predicate SameSkeleton(o1: Dict<UnityObject>, o2: Dict<UnityObject>) {
    o1.keys == o2.keys &&
    (forall k :: k in o1.values <==> k in o2.values) &&
    forall k :: k in o1.values ==> SameButChildren(o1.values[k], o2.values[k])
  }

  lemma {:induction false} RootsSame(o1: Dict<UnityObject>, o2: Dict<UnityObject>, ks: seq<string>)
    requires SameSkeleton(o1, o2) && forall i :: 0 <= i < |ks| ==> ks[i] in o1.values
    ensures RootsIn(o1, ks) == RootsIn(o2, ks)
  {
    if ks != [] {
      var c := ks[|ks| - 1];
      RootsSame(o1, o2, ks[..|ks| - 1]);
      assert o1.values[c].(children := []) == o2.values[c].(children := []);
    }
  }

  lemma {:induction false} ChildrenSame(o1: Dict<UnityObject>, o2: Dict<UnityObject>, ks: seq<string>, p: string)
    requires SameSkeleton(o1, o2) && forall i :: 0 <= i < |ks| ==> ks[i] in o1.values
    ensures ChildrenIn(o1, ks, p) == ChildrenIn(o2, ks, p)
  {
    if ks != [] {
      var c := ks[|ks| - 1];
      ChildrenSame(o1, o2, ks[..|ks| - 1], p);
      assert o1.values[c].(children := []) == o2.values[c].(children := []);
    }
  }

  // ---------------------------------------------------------------------
  // Linking (the loop over _objects.Values in Process)

  /**
   * The store once the records of ks have been linked: each record's
   * children gain its child transforms among ks, in order.
   */
  function WithChildren(o: Dict<UnityObject>, ks: seq<string>): (r: Dict<UnityObject>)
    requires forall i :: 0 <= i < |ks| ==> ks[i] in o.values
  {
    Dict(o.keys, map k | k in o.values :: o.values[k].(children := o.values[k].children + ChildrenIn(o, ks, k)))
  }

  /** Before any key is linked, the store is as parsed. */
  lemma WithChildrenNone(o: Dict<UnityObject>)
    ensures WithChildren(o, []) == o
  {
    var w := WithChildren(o, []);
    forall k | k in o.values ensures w.values[k] == o.values[k] {
      assert o.values[k].children + [] == o.values[k].children;
    }
    assert w.values == o.values;
  }

  /** Linking changes nothing but children. */
  lemma WithChildrenSkeleton(o: Dict<UnityObject>, ks: seq<string>)
    requires StoreValid(o) && forall i :: 0 <= i < |ks| ==> ks[i] in o.values
    ensures StoreValid(WithChildren(o, ks)) && SameSkeleton(o, WithChildren(o, ks))
  {
  }

  lemma ChildrenInSnoc(objs: Dict<UnityObject>, ks: seq<string>, c: string, p: string)
    requires forall i :: 0 <= i < |ks| ==> ks[i] in objs.values
    requires c in objs.values
    ensures ChildrenIn(objs, ks + [c], p) ==
      ChildrenIn(objs, ks, p) + (if LinksTo(objs.values[c], p) then [c] else [])
  {
    assert (ks + [c])[..|ks|] == ks;
  }

  /**
   * One pass of the linking loop over record c: when c is a transform whose
   * parent id resolves, the parent's children gain c; otherwise nothing
   * changes. The record is read from the partly linked store, which agrees
   * with the parsed one on everything but children.
   */
  lemma LinkStep(o: Dict<UnityObject>, ks: seq<string>, c: string)
    requires StoreValid(o) && forall i :: 0 <= i < |ks| ==> ks[i] in o.values
    requires c in o.values
    ensures var w := WithChildren(o, ks);
      var t := w.values[c];
      var p := t.parentTransformId;
      WithChildren(o, ks + [c]) ==
        if LinksTo(t, p) && p in w.values then Put(w, p, w.values[p].(children := w.values[p].children + [c]))
        else w
  {
    var w := WithChildren(o, ks);
    WithChildrenSkeleton(o, ks);
    assert SameButChildren(o.values[c], w.values[c]);
    var p := o.values[c].parentTransformId;
    if LinksTo(o.values[c], p) && p in o.values {
      LinkStepLinked(o, ks, c);
    } else {
      LinkStepUnlinked(o, ks, c);
    }
  }

  /**
   * Pass i of the linking loop, over the i-th key c: the record read is c's,
   * as parsed but for its children; c joins the roots when it is a root, and
   * its parent's children when its parent id resolves.
   */
  lemma LinkPass(o: Dict<UnityObject>, i: nat)
    requires StoreValid(o) && i < |o.keys|
    ensures var w := WithChildren(o, o.keys[..i]);
      var c := o.keys[i];
      StoreValid(w) && c in w.values && w.values[c].fileId == c && SameButChildren(o.values[c], w.values[c])
    ensures var w := WithChildren(o, o.keys[..i]);
      var c := o.keys[i];
      var t := w.values[c];
      var p := t.parentTransformId;
      WithChildren(o, o.keys[..i + 1]) ==
        if LinksTo(t, p) && p in w.values then Put(w, p, w.values[p].(children := w.values[p].children + [c]))
        else w
    ensures var c := o.keys[i];
      RootsIn(o, o.keys[..i + 1]) == RootsIn(o, o.keys[..i]) + (if IsRoot(o.values[c]) then [c] else [])
  {
    var ks := o.keys[..i];
    var c := o.keys[i];
    assert o.keys[..i + 1] == ks + [c];
    WithChildrenSkeleton(o, ks);
    LinkStep(o, ks, c);
    RootsInSnoc(o, ks, c);
  }

  lemma LinkStepLinked(o: Dict<UnityObject>, ks: seq<string>, c: string)
    requires StoreValid(o) && forall i :: 0 <= i < |ks| ==> ks[i] in o.values
    requires c in o.values
    requires var p := o.values[c].parentTransformId; LinksTo(o.values[c], p) && p in o.values
    ensures var w := WithChildren(o, ks);
      var p := o.values[c].parentTransformId;
      WithChildren(o, ks + [c]) == Put(w, p, w.values[p].(children := w.values[p].children + [c]))
  {
    var w := WithChildren(o, ks);
    var w2 := WithChildren(o, ks + [c]);
    var p := o.values[c].parentTransformId;
    var r := Put(w, p, w.values[p].(children := w.values[p].children + [c]));
    forall k | k in o.values ensures w2.values[k] == r.values[k] {
      LinkSnocAt(o, ks, c, k);
    }
    assert w2.values.Keys == r.values.Keys;
    assert w2.values == r.values;
  }

  lemma LinkStepUnlinked(o: Dict<UnityObject>, ks: seq<string>, c: string)
    requires StoreValid(o) && forall i :: 0 <= i < |ks| ==> ks[i] in o.values
    requires c in o.values
    requires var p := o.values[c].parentTransformId; !(LinksTo(o.values[c], p) && p in o.values)
    ensures WithChildren(o, ks + [c]) == WithChildren(o, ks)
  {
    var w := WithChildren(o, ks);
    var w2 := WithChildren(o, ks + [c]);
    forall k | k in o.values ensures w2.values[k] == w.values[k] {
      LinkSnocAt(o, ks, c, k);
    }
    assert w2.values.Keys == w.values.Keys;
    assert w2.values == w.values;
  }

  /** Linking one more record c changes record k only when c is k's child. */
  lemma LinkSnocAt(o: Dict<UnityObject>, ks: seq<string>, c: string, k: string)
    requires forall i :: 0 <= i < |ks| ==> ks[i] in o.values
    requires c in o.values && k in o.values
    ensures var w := WithChildren(o, ks);
      WithChildren(o, ks + [c]).values[k] ==
        if LinksTo(o.values[c], k) then w.values[k].(children := w.values[k].children + [c]) else w.values[k]
  {
    ChildrenInSnoc(o, ks, c, k);
    WithChildrenAt(o, ks, k);
    WithChildrenAt(o, ks + [c], k);
    if !LinksTo(o.values[c], k) {
      assert ChildrenIn(o, ks, k) + [] == ChildrenIn(o, ks, k);
    }
  }

  /** The record k once the records of ks are linked. */
  lemma WithChildrenAt(o: Dict<UnityObject>, ks: seq<string>, k: string)
    requires forall i :: 0 <= i < |ks| ==> ks[i] in o.values
    requires k in o.values
    ensures k in WithChildren(o, ks).values
    ensures WithChildren(o, ks).values[k] == o.values[k].(children := o.values[k].children + ChildrenIn(o, ks, k))
  {
  }

  /** Every record's children are exactly its child transforms. */
  ghost predicate Linked(objs: Dict<UnityObject>)
    requires StoreValid(objs)
  {
    forall p :: p in objs.values ==> ChildrenOf(objs, p) == ChildrenIn(objs, objs.keys, p)
  }

  /** The children recorded for p. */
  function ChildrenOf(objs: Dict<UnityObject>, p: string): seq<string>
    requires p in objs.values
  {
    objs.values[p].children
  }

  /** Parsed records have no children yet; once every key is linked, the store is linked. */
  lemma WithChildrenLinks(objs: Dict<UnityObject>)
    requires StoreValid(objs) && forall k :: k in objs.values ==> objs.values[k].children == []
    ensures StoreValid(WithChildren(objs, objs.keys)) && Linked(WithChildren(objs, objs.keys))
  {
    var l := WithChildren(objs, objs.keys);
    WithChildrenSkeleton(objs, objs.keys);
    forall p | p in l.values ensures ChildrenOf(l, p) == ChildrenIn(l, l.keys, p) {
      ChildrenSame(objs, l, objs.keys, p);
    }
  }

  // ---------------------------------------------------------------------
  // Chains

  /** The keys below the end of a chain: the roots for the empty chain. */
  function Kids(objs: Dict<UnityObject>, chain: seq<string>): seq<string>
    requires StoreValid(objs)
  {
    if chain == [] then RootsIn(objs, objs.keys) else ChildrenIn(objs, objs.keys, chain[|chain| - 1])
  }

  /** A path from a root transform down through child transforms. */
  ghost predicate ValidChain(objs: Dict<UnityObject>, chain: seq<string>) {
    (forall i :: 0 <= i < |chain| ==> chain[i] in objs.values) &&
    (|chain| > 0 ==> IsRoot(objs.values[chain[0]])) &&
    forall i :: 0 < i < |chain| ==> LinksTo(objs.values[chain[i]], chain[i - 1])
  }

  lemma KidsExtend(objs: Dict<UnityObject>, chain: seq<string>, c: string)
    requires StoreValid(objs) && ValidChain(objs, chain) && c in Kids(objs, chain)
    ensures ValidChain(objs, chain + [c])
  {
    KidsMembers(objs, chain);
    var ext := chain + [c];
    assert forall i :: 0 <= i < |chain| ==> ext[i] == chain[i];
  }

  /** What a valid chain says at one position. */
  lemma ChainAt(objs: Dict<UnityObject>, ch: seq<string>, i: nat)
    requires ValidChain(objs, ch) && i < |ch|
    ensures ch[i] in objs.values
    ensures i == 0 ==> IsRoot(objs.values[ch[i]])
    ensures i > 0 ==> LinksTo(objs.values[ch[i]], ch[i - 1])
  {
  }

  /** A prefix of a chain is a chain. */
  lemma ChainPrefix(objs: Dict<UnityObject>, ch: seq<string>, m: nat)
    requires ValidChain(objs, ch) && m <= |ch|
    ensures ValidChain(objs, ch[..m])
  {
    var p := ch[..m];
    assert forall i :: 0 <= i < m ==> p[i] == ch[i];
    forall i | 0 < i < m ensures LinksTo(objs.values[p[i]], p[i - 1]) {
      ChainAt(objs, ch, i);
    }
  }

  /** Each step of a chain is among the kids of the chain before it. */
  lemma KidOfChain(objs: Dict<UnityObject>, ch: seq<string>, m: nat)
    requires StoreValid(objs) && ValidChain(objs, ch) && m < |ch|
    ensures ch[m] in Kids(objs, ch[..m])
  {
    ChainAt(objs, ch, m);
    KidsMembers(objs, ch[..m]);
    if m > 0 {
      assert ch[..m][m - 1] == ch[m - 1];
    }
  }

  /** No id repeats on a chain: each step's parent is the step before. */
  lemma {:induction false} ChainNoRepeat(objs: Dict<UnityObject>, chain: seq<string>, i: nat, j: nat)
    requires ValidChain(objs, chain) && i < j < |chain|
    ensures chain[i] != chain[j]
    decreases i
  {
    ChainAt(objs, chain, i);
    ChainAt(objs, chain, j);
    if i > 0 {
      ChainNoRepeat(objs, chain, i - 1, j - 1);
    }
  }

  lemma ChainDistinct(objs: Dict<UnityObject>, chain: seq<string>)
    requires ValidChain(objs, chain)
    ensures Distinct(chain)
  {
    forall i, j | 0 <= i < j < |chain| ensures chain[i] != chain[j] {
      ChainNoRepeat(objs, chain, i, j);
    }
  }

  /** A chain is never longer than the store. */
  lemma ChainBound(objs: Dict<UnityObject>, chain: seq<string>)
    requires StoreValid(objs) && ValidChain(objs, chain)
    ensures |chain| <= |objs.keys|
  {
    ChainDistinct(objs, chain);
    DistinctWithin(chain, objs.keys);
  }

  /** Only one chain ends at a given id. */
  lemma {:induction false} ChainUnique(objs: Dict<UnityObject>, c1: seq<string>, c2: seq<string>)
    requires ValidChain(objs, c1) && ValidChain(objs, c2) && c1 != [] && c2 != []
    requires c1[|c1| - 1] == c2[|c2| - 1]
    ensures c1 == c2
    decreases |c1|
  {
    var n1 := |c1| - 1;
    var n2 := |c2| - 1;
    ChainAt(objs, c1, n1);
    ChainAt(objs, c2, n2);
    if n1 > 0 && n2 > 0 {
      var p1 := c1[..n1];
      var p2 := c2[..n2];
      ChainPrefix(objs, c1, n1);
      ChainPrefix(objs, c2, n2);
      ChainUnique(objs, p1, p2);
      assert c1 == p1 + [c1[n1]] && c2 == p2 + [c2[n2]];
    }
  }

  // ---------------------------------------------------------------------
  // The printing order (PrintTree)

  /** The chains PrintTree visits from a chain: itself, then its children's subtrees in order. */
  function Preorder(objs: Dict<UnityObject>, chain: seq<string>): seq<seq<string>>
    requires StoreValid(objs) && ValidChain(objs, chain) && chain != []
    decreases |objs.keys| - |chain|, 1, 0
  {
    ChainBound(objs, chain);
    [chain] + Forest(objs, chain, Kids(objs, chain))
  }

  /** The subtrees of the given children of a chain, in order. */
  function Forest(objs: Dict<UnityObject>, chain: seq<string>, ks: seq<string>): seq<seq<string>>
    requires StoreValid(objs) && ValidChain(objs, chain)
    requires forall i :: 0 <= i < |ks| ==> ks[i] in Kids(objs, chain)
    decreases |objs.keys| - |chain|, 0, |ks|
  {
    if ks == [] then []
    else
      var c := ks[|ks| - 1];
      KidsExtend(objs, chain, c);
      ChainBound(objs, chain + [c]);
      Forest(objs, chain, ks[..|ks| - 1]) + Preorder(objs, chain + [c])
  }

  /** Every visited chain is valid and extends the chain the walk started from. */
  ghost predicate Below(objs: Dict<UnityObject>, chain: seq<string>, e: seq<string>) {
    ValidChain(objs, e) && |chain| <= |e| && e != [] && e[..|chain|] == chain
  }

  lemma {:induction false} PreorderBelow(objs: Dict<UnityObject>, chain: seq<string>)
    requires StoreValid(objs) && ValidChain(objs, chain) && chain != []
    ensures forall e :: e in Preorder(objs, chain) ==> Below(objs, chain, e)
    decreases |objs.keys| - |chain|, 1, 0
  {
    ChainBound(objs, chain);
    ForestBelow(objs, chain, Kids(objs, chain));
  }

  lemma {:induction false} ForestBelow(objs: Dict<UnityObject>, chain: seq<string>, ks: seq<string>)
    requires StoreValid(objs) && ValidChain(objs, chain)
    requires forall i :: 0 <= i < |ks| ==> ks[i] in Kids(objs, chain)
    ensures forall e :: e in Forest(objs, chain, ks) ==>
      Below(objs, chain, e) && |e| > |chain| && e[|chain|] in ks
    decreases |objs.keys| - |chain|, 0, |ks|
  {
    if ks != [] {
      var c := ks[|ks| - 1];
      var init := ks[..|ks| - 1];
      KidsExtend(objs, chain, c);
      ChainBound(objs, chain + [c]);
      ForestBelow(objs, chain, init);
      PreorderBelow(objs, chain + [c]);
      forall e | e in Preorder(objs, chain + [c])
        ensures Below(objs, chain, e) && |e| > |chain| && e[|chain|] in ks
      {
        BelowChild(objs, chain, c, e);
      }
    }
  }

  lemma BelowChild(objs: Dict<UnityObject>, chain: seq<string>, c: string, e: seq<string>)
    requires Below(objs, chain + [c], e)
    ensures Below(objs, chain, e) && |e| > |chain| && e[|chain|] == c
  {
    assert e[..|chain| + 1] == chain + [c];
    assert e[..|chain|] == e[..|chain| + 1][..|chain|];
    assert e[|chain|] == e[..|chain| + 1][|chain|];
  }

  /** The visited chains are pairwise different. */
  lemma {:induction false} PreorderDistinct(objs: Dict<UnityObject>, chain: seq<string>)
    requires StoreValid(objs) && ValidChain(objs, chain) && chain != []
    ensures Distinct(Preorder(objs, chain))
    decreases |objs.keys| - |chain|, 1, 0
  {
    ChainBound(objs, chain);
    var ks := Kids(objs, chain);
    KidsDistinct(objs, chain);
    ForestDistinct(objs, chain, ks);
    ForestBelow(objs, chain, ks);
    var f := Forest(objs, chain, ks);
    assert forall e :: e in f ==> e != chain;
    DistinctCons(chain, f);
  }

  lemma {:induction false} ForestDistinct(objs: Dict<UnityObject>, chain: seq<string>, ks: seq<string>)
    requires StoreValid(objs) && ValidChain(objs, chain)
    requires forall i :: 0 <= i < |ks| ==> ks[i] in Kids(objs, chain)
    requires Distinct(ks)
    ensures Distinct(Forest(objs, chain, ks))
    decreases |objs.keys| - |chain|, 0, |ks|
  {
    if ks != [] {
      var c := ks[|ks| - 1];
      var init := ks[..|ks| - 1];
      KidsExtend(objs, chain, c);
      ChainBound(objs, chain + [c]);
      ForestDistinct(objs, chain, init);
      PreorderDistinct(objs, chain + [c]);
      ForestBelow(objs, chain, init);
      PreorderBelow(objs, chain + [c]);
      var a := Forest(objs, chain, init);
      var b := Preorder(objs, chain + [c]);
      forall x, y | x in a && y in b ensures x != y {
        assert y[..|chain| + 1] == chain + [c];
        assert y[|chain|] == y[..|chain| + 1][|chain|] == c;
        assert x[|chain|] in init;
      }
      DistinctAppend(a, b);
    }
  }

  lemma DistinctCons<T>(x: T, s: seq<T>)
    requires Distinct(s) && x !in s
    ensures Distinct([x] + s)
  {
    var t := [x] + s;
    forall i, j | 0 <= i < j < |t| ensures t[i] != t[j] {
      if i > 0 {
        assert t[i] == s[i - 1] && t[j] == s[j - 1];
      } else {
        assert t[j] == s[j - 1];
      }
    }
  }

  lemma DistinctAppend<T>(a: seq<T>, b: seq<T>)
    requires Distinct(a) && Distinct(b) && forall x, y :: x in a && y in b ==> x != y
    ensures Distinct(a + b)
  {
    var t := a + b;
    forall i, j | 0 <= i < j < |t| ensures t[i] != t[j] {
      if j < |a| {
        assert t[i] == a[i] && t[j] == a[j];
      } else if i >= |a| {
        assert t[i] == b[i - |a|] && t[j] == b[j - |a|];
      } else {
        assert t[i] in a && t[j] in b;
      }
    }
  }

  /** Every chain from a root is visited. */
  lemma {:induction false} ChainInPreorder(objs: Dict<UnityObject>, ch: seq<string>, m: nat)
    requires StoreValid(objs) && ValidChain(objs, ch) && 1 <= m <= |ch|
    ensures ValidChain(objs, ch[..m]) && ch in Preorder(objs, ch[..m])
    decreases |ch| - m
  {
    var chain := ch[..m];
    ChainPrefix(objs, ch, m);
    if m < |ch| {
      assert ch[..m + 1] == chain + [ch[m]];
      KidOfChain(objs, ch, m);
      ChainInPreorder(objs, ch, m + 1);
      ChainBound(objs, chain);
      InForest(objs, chain, Kids(objs, chain), ch[m], ch);
    } else {
      assert ch == chain;
    }
  }

  lemma {:induction false} InForest(objs: Dict<UnityObject>, chain: seq<string>, ks: seq<string>, c: string, e: seq<string>)
    requires StoreValid(objs) && ValidChain(objs, chain)
    requires forall i :: 0 <= i < |ks| ==> ks[i] in Kids(objs, chain)
    requires c in ks && ValidChain(objs, chain + [c])
    requires e in Preorder(objs, chain + [c])
    ensures e in Forest(objs, chain, ks)
    decreases |ks|
  {
    var last := ks[|ks| - 1];
    if c != last {
      InForest(objs, chain, ks[..|ks| - 1], c, e);
    }
  }

  /** The chains printed from the roots. */
  function Printed(objs: Dict<UnityObject>): seq<seq<string>>
    requires StoreValid(objs)
  {
    Forest(objs, [], Kids(objs, []))
  }

  /** Some chain from a root ends at t. */
  ghost predicate Reachable(objs: Dict<UnityObject>, t: string) {
    exists e :: ValidChain(objs, e) && e != [] && e[|e| - 1] == t
  }

  /** The printed ids, in printing order. */
  function PrintedIds(objs: Dict<UnityObject>): (ids: seq<string>)
    requires StoreValid(objs)
    ensures |ids| == |Printed(objs)|
  {
    var p := Printed(objs);
    ForestBelow(objs, [], Kids(objs, []));
    seq(|p|, i requires 0 <= i < |p| => p[i][|p[i]| - 1])
  }

  /** The printed chains are exactly the chains from a root. */
  lemma PrintedChains(objs: Dict<UnityObject>)
    requires StoreValid(objs)
    ensures forall e :: e in Printed(objs) <==> ValidChain(objs, e) && e != []
  {
    var ks := Kids(objs, []);
    ForestBelow(objs, [], ks);
    forall e | ValidChain(objs, e) && e != [] ensures e in Printed(objs) {
      ChainInPreorder(objs, e, 1);
      KidOfChain(objs, e, 0);
      assert e[..1] == [] + [e[0]];
      InForest(objs, [], ks, e[0], e);
    }
  }

  /** The ids printed are exactly the reachable ones, and none is printed twice. */
  lemma PrintedExactlyOnce(objs: Dict<UnityObject>)
    requires StoreValid(objs)
    ensures forall t :: t in PrintedIds(objs) <==> Reachable(objs, t)
    ensures Distinct(PrintedIds(objs))
  {
    var p := Printed(objs);
    var ids := PrintedIds(objs);
    PrintedChains(objs);
    KidsDistinct(objs, []);
    ForestDistinct(objs, [], Kids(objs, []));
    forall t ensures t in ids <==> Reachable(objs, t) {
      if t in ids {
        var i :| 0 <= i < |ids| && ids[i] == t;
        assert p[i] in p;
      }
      if Reachable(objs, t) {
        var e :| ValidChain(objs, e) && e != [] && e[|e| - 1] == t;
        var i :| 0 <= i < |p| && p[i] == e;
        assert ids[i] == t;
      }
    }
    forall i, j | 0 <= i < j < |ids| ensures ids[i] != ids[j] {
      assert p[i] in p && p[j] in p;
      if ids[i] == ids[j] {
        ChainUnique(objs, p[i], p[j]);
      }
    }
  }

  /** No chain ends at a transform whose parent id is real but names no stored record. */
  lemma OrphanEndsNoChain(objs: Dict<UnityObject>, e: seq<string>, t: string)
    requires ValidChain(objs, e) && e != [] && t in objs.values
    requires var p := objs.values[t].parentTransformId; p != "" && p != "0" && p !in objs.values
    ensures e[|e| - 1] != t
  {
    ChainAt(objs, e, |e| - 1);
    if |e| > 1 {
      ChainAt(objs, e, |e| - 2);
    }
  }

  /** A transform whose parent id names no stored record, and is neither "" nor "0", is never printed. */
  lemma OrphanNeverPrinted(objs: Dict<UnityObject>, t: string)
    requires StoreValid(objs) && t in objs.values
    requires var p := objs.values[t].parentTransformId; p != "" && p != "0" && p !in objs.values
    ensures t !in PrintedIds(objs)
  {
    PrintedExactlyOnce(objs);
    forall e | ValidChain(objs, e) && e != [] ensures e[|e| - 1] != t {
      OrphanEndsNoChain(objs, e, t);
    }
  }

  /** Only transforms are printed. */
  lemma OnlyTransformsPrinted(objs: Dict<UnityObject>)
    requires StoreValid(objs)
    ensures forall t :: t in PrintedIds(objs) ==> t in objs.values && IsTransformClass(objs.values[t].classId)
  {
    PrintedExactlyOnce(objs);
    forall t | t in PrintedIds(objs) ensures t in objs.values && IsTransformClass(objs.values[t].classId) {
      var e :| ValidChain(objs, e) && e != [] && e[|e| - 1] == t;
      ChainAt(objs, e, |e| - 1);
    }
  }

  // ---------------------------------------------------------------------
  // The printed lines

  function Indent(depth: nat): (r: string)
    ensures |r| == 2 * depth && forall i :: 0 <= i < |r| ==> r[i] == ' '
  {
    seq(2 * depth, _ => ' ')
  }

  /** The owning GameObject, when the transform names one that is stored. */
  function Owner(objs: Dict<UnityObject>, t: string): Option<UnityObject>
    requires t in objs.values
  {
    var g := objs.values[t].gameObjectId;
    if g != "" && g in objs.values then Some(objs.values[g]) else None
  }

  /** `key:value` for each script field, values shortened, in first-insertion order. */
  function PropertyTexts(keys: seq<string>, values: map<string, string>): seq<string>
    requires forall i :: 0 <= i < |keys| ==> keys[i] in values
  {
    if keys == [] then []
    else
      var k := keys[|keys| - 1];
      PropertyTexts(keys[..|keys| - 1], values) + [k + ":" + ShortenVal(values[k])]
  }

  /** A component's label: its class name, and for a script with fields, the fields. */
  function ComponentLabel(comp: UnityObject): string
    requires Valid(comp.properties)
  {
    var name := GetComponentName(comp.classId);
    if comp.classId == ScriptClass && Count(comp.properties) > 0 then
      name + "(" + Join(", ", PropertyTexts(comp.properties.keys, comp.properties.values)) + ")"
    else name
  }

  /** The labels of the listed components, skipping the transform itself and unresolved ids. */
  function ComponentLabels(objs: Dict<UnityObject>, ids: seq<string>, self: string): seq<string>
    requires StoreValid(objs)
  {
    if ids == [] then []
    else
      var id := ids[|ids| - 1];
      ComponentLabels(objs, ids[..|ids| - 1], self) +
        (if id == self || id !in objs.values then [] else [ComponentLabel(objs.values[id])])
  }

  /** What follows the name: ` [labels]`, or nothing. */
  function ComponentSuffix(objs: Dict<UnityObject>, t: string): string
    requires StoreValid(objs) && t in objs.values
  {
    match Owner(objs, t)
    case None => ""
    case Some(go) =>
      if |go.componentIds| > 0 then
        var labels := ComponentLabels(objs, go.componentIds, t);
        if |labels| > 0 then " [" + Join(", ", labels) + "]" else ""
      else ""
  }

  /** One line of PrintTree: indentation, the GameObject's name or "Unknown", the components. */
  function Line(objs: Dict<UnityObject>, t: string, depth: nat): string
    requires StoreValid(objs) && t in objs.values
  {
    var name := match Owner(objs, t) case Some(go) => go.name case None => "Unknown";
    Indent(depth) + name + ComponentSuffix(objs, t) + "\n"
  }

  /** Each chain is nonempty and ends at a stored key. */
  predicate EndsStored(objs: Dict<UnityObject>, cs: seq<seq<string>>) {
    forall i :: 0 <= i < |cs| ==> cs[i] != [] && cs[i][|cs[i]| - 1] in objs.values
  }

  lemma ChainsEndStored(objs: Dict<UnityObject>, cs: seq<seq<string>>)
    requires forall e :: e in cs ==> ValidChain(objs, e) && e != []
    ensures EndsStored(objs, cs)
  {
    forall i | 0 <= i < |cs| ensures cs[i] != [] && cs[i][|cs[i]| - 1] in objs.values {
      assert cs[i] in cs;
      ChainAt(objs, cs[i], |cs[i]| - 1);
    }
  }

  /** The strings one after the other: the text of a StringBuilder holding them. */
  function Concat(ss: seq<string>): string {
    if ss == [] then [] else Concat(ss[..|ss| - 1]) + ss[|ss| - 1]
  }

  lemma {:induction false} ConcatAppend(a: seq<string>, b: seq<string>)
    ensures Concat(a + b) == Concat(a) + Concat(b)
    decreases |b|
  {
    if b == [] {
      assert a + b == a;
    } else {
      var init := b[..|b| - 1];
      assert (a + b)[..|a + b| - 1] == a + init;
      ConcatAppend(a, init);
    }
  }

  /** The line of each chain, at its depth. */
  function LineTexts(objs: Dict<UnityObject>, cs: seq<seq<string>>): (r: seq<string>)
    requires StoreValid(objs) && EndsStored(objs, cs)
    ensures |r| == |cs|
  {
    seq(|cs|, i requires 0 <= i < |cs| => Line(objs, cs[i][|cs[i]| - 1], |cs[i]| - 1))
  }

  lemma EndsStoredAppend(objs: Dict<UnityObject>, a: seq<seq<string>>, b: seq<seq<string>>)
    requires EndsStored(objs, a) && EndsStored(objs, b)
    ensures EndsStored(objs, a + b)
  {
    var ab := a + b;
    assert forall i :: 0 <= i < |a| ==> ab[i] == a[i];
    assert forall i :: |a| <= i < |ab| ==> ab[i] == b[i - |a|];
  }

  lemma LineTextsAppend(objs: Dict<UnityObject>, a: seq<seq<string>>, b: seq<seq<string>>)
    requires StoreValid(objs) && EndsStored(objs, a) && EndsStored(objs, b) && EndsStored(objs, a + b)
    ensures LineTexts(objs, a + b) == LineTexts(objs, a) + LineTexts(objs, b)
  {
    var ab := a + b;
    var l := LineTexts(objs, ab);
    var r := LineTexts(objs, a) + LineTexts(objs, b);
    forall i | 0 <= i < |ab| ensures l[i] == r[i] {
      if i < |a| {
        assert ab[i] == a[i];
      } else {
        assert ab[i] == b[i - |a|];
      }
    }
  }

  /** What PrintTree writes for the subtree below a chain: the chain's own line, then its children's subtrees. */
  function TreeLines(objs: Dict<UnityObject>, chain: seq<string>): seq<string>
    requires StoreValid(objs) && ValidChain(objs, chain) && chain != []
    decreases |objs.keys| - |chain|, 1, 0
  {
    ChainBound(objs, chain);
    ChainAt(objs, chain, |chain| - 1);
    [Line(objs, chain[|chain| - 1], |chain| - 1)] + ForestLines(objs, chain, Kids(objs, chain))
  }

  /** What PrintTree writes for the subtrees of the given children of a chain, in order. */
  function ForestLines(objs: Dict<UnityObject>, chain: seq<string>, ks: seq<string>): seq<string>
    requires StoreValid(objs) && ValidChain(objs, chain)
    requires forall i :: 0 <= i < |ks| ==> ks[i] in Kids(objs, chain)
    decreases |objs.keys| - |chain|, 0, |ks|
  {
    if ks == [] then []
    else
      var c := ks[|ks| - 1];
      KidsExtend(objs, chain, c);
      ChainBound(objs, chain + [c]);
      ForestLines(objs, chain, ks[..|ks| - 1]) + TreeLines(objs, chain + [c])
  }

  /** The lines are those of the visited chains, each at its depth. */
  lemma {:induction false} TreeLinesArePreorder(objs: Dict<UnityObject>, chain: seq<string>)
    requires StoreValid(objs) && ValidChain(objs, chain) && chain != []
    ensures EndsStored(objs, Preorder(objs, chain))
    ensures TreeLines(objs, chain) == LineTexts(objs, Preorder(objs, chain))
    decreases |objs.keys| - |chain|, 1, 0
  {
    ChainAt(objs, chain, |chain| - 1);
    ChainBound(objs, chain);
    var ks := Kids(objs, chain);
    ForestLinesAreForest(objs, chain, ks);
    assert LineTexts(objs, [chain]) == [Line(objs, chain[|chain| - 1], |chain| - 1)];
    EndsStoredAppend(objs, [chain], Forest(objs, chain, ks));
    LineTextsAppend(objs, [chain], Forest(objs, chain, ks));
  }

  lemma {:induction false} ForestLinesAreForest(objs: Dict<UnityObject>, chain: seq<string>, ks: seq<string>)
    requires StoreValid(objs) && ValidChain(objs, chain)
    requires forall i :: 0 <= i < |ks| ==> ks[i] in Kids(objs, chain)
    ensures EndsStored(objs, Forest(objs, chain, ks))
    ensures ForestLines(objs, chain, ks) == LineTexts(objs, Forest(objs, chain, ks))
    decreases |objs.keys| - |chain|, 0, |ks|
  {
    if ks == [] {
      assert LineTexts(objs, []) == [];
    } else {
      var c := ks[|ks| - 1];
      var init := ks[..|ks| - 1];
      KidsExtend(objs, chain, c);
      ChainBound(objs, chain + [c]);
      ForestLinesAreForest(objs, chain, init);
      TreeLinesArePreorder(objs, chain + [c]);
      EndsStoredAppend(objs, Forest(objs, chain, init), Preorder(objs, chain + [c]));
      LineTextsAppend(objs, Forest(objs, chain, init), Preorder(objs, chain + [c]));
    }
  }

  /** The children's lines grow by one subtree per child. */
  lemma ForestLinesSnoc(objs: Dict<UnityObject>, chain: seq<string>, ks: seq<string>, j: nat)
    requires StoreValid(objs) && ValidChain(objs, chain)
    requires forall i :: 0 <= i < |ks| ==> ks[i] in Kids(objs, chain)
    requires j < |ks|
    ensures ValidChain(objs, chain + [ks[j]])
    ensures ForestLines(objs, chain, ks[..j + 1]) == ForestLines(objs, chain, ks[..j]) + TreeLines(objs, chain + [ks[j]])
  {
    KidsExtend(objs, chain, ks[j]);
    assert ks[..j + 1][..j] == ks[..j];
  }

  /** The j-th root starts a chain of its own. */
  lemma RootStep(objs: Dict<UnityObject>, roots: seq<string>, j: nat, out: seq<string>)
    requires StoreValid(objs) && roots == Kids(objs, []) && j < |roots|
    ensures ValidChain(objs, [roots[j]])
    ensures out + ForestLines(objs, [], roots[..j + 1]) ==
      out + ForestLines(objs, [], roots[..j]) + TreeLines(objs, [roots[j]])
  {
    assert [] + [roots[j]] == [roots[j]];
    ForestLinesSnoc(objs, [], roots, j);
  }

  /** A chain PrintTree can be called on: a path from a root through a linked store. */
  ghost predicate Printable(objs: Dict<UnityObject>, chain: seq<string>) {
    StoreValid(objs) && Linked(objs) && ValidChain(objs, chain) && chain != []
  }

  /** A subtree's lines: the chain's line, then the subtrees of its kids, which are the children linking recorded. */
  lemma TreeStart(objs: Dict<UnityObject>, chain: seq<string>, out: seq<string>)
    requires Printable(objs, chain)
    ensures chain[|chain| - 1] in objs.values
    ensures ChildrenOf(objs, chain[|chain| - 1]) == Kids(objs, chain)
    ensures out + TreeLines(objs, chain) ==
      out + [Line(objs, chain[|chain| - 1], |chain| - 1)] + ForestLines(objs, chain, Kids(objs, chain))
  {
    ChainAt(objs, chain, |chain| - 1);
  }

  /** The j-th kid extends the chain by one level, within the store's size. */
  lemma ChildStep(objs: Dict<UnityObject>, chain: seq<string>, j: nat, out: seq<string>)
    requires Printable(objs, chain) && j < |Kids(objs, chain)|
    ensures Printable(objs, chain + [Kids(objs, chain)[j]])
    ensures |chain| < |objs.keys|
    ensures Indent(|chain|) == Indent(|chain| - 1) + "  "
    ensures var ks := Kids(objs, chain);
      out + ForestLines(objs, chain, ks[..j + 1]) == out + ForestLines(objs, chain, ks[..j]) + TreeLines(objs, chain + [ks[j]])
  {
    var ks := Kids(objs, chain);
    ForestLinesSnoc(objs, chain, ks, j);
    ChainBound(objs, chain + [ks[j]]);
    IndentStep(|chain| - 1);
  }

  lemma IndentStep(depth: nat)
    ensures Indent(depth + 1) == Indent(depth) + "  "
  {
  }

  lemma RootsInSnoc(objs: Dict<UnityObject>, ks: seq<string>, c: string)
    requires forall i :: 0 <= i < |ks| ==> ks[i] in objs.values
    requires c in objs.values
    ensures RootsIn(objs, ks + [c]) == RootsIn(objs, ks) + (if IsRoot(objs.values[c]) then [c] else [])
  {
    assert (ks + [c])[..|ks|] == ks;
  }

  /** A transform whose GameObject cannot be found prints as a bare "Unknown" line. */
  lemma UnknownOwnerLine(objs: Dict<UnityObject>, t: string, depth: nat)
    requires StoreValid(objs) && t in objs.values
    requires var g := objs.values[t].gameObjectId; g == "" || g !in objs.values
    ensures Line(objs, t, depth) == Indent(depth) + "Unknown\n"
  {
  }

  /** No labels exactly when every listed component is the transform itself or unresolved. */
  lemma {:induction false} ComponentLabelsEmpty(objs: Dict<UnityObject>, ids: seq<string>, self: string)
    requires StoreValid(objs)
    ensures ComponentLabels(objs, ids, self) == [] <==>
      forall i :: 0 <= i < |ids| ==> ids[i] == self || ids[i] !in objs.values
  {
    if ids != [] {
      var init := ids[..|ids| - 1];
      ComponentLabelsEmpty(objs, init, self);
      assert forall i :: 0 <= i < |init| ==> init[i] == ids[i];
    }
  }

  /** Every shown field value is at most 20 characters: a longer one keeps 17 and ends in "...". */
  lemma {:induction false} PropertyTextsShort(keys: seq<string>, values: map<string, string>)
    requires forall i :: 0 <= i < |keys| ==> keys[i] in values
    ensures |PropertyTexts(keys, values)| == |keys|
    ensures forall i :: 0 <= i < |keys| ==>
      PropertyTexts(keys, values)[i] == keys[i] + ":" + ShortenVal(values[keys[i]]) &&
      |ShortenVal(values[keys[i]])| <= 20
  {
    if keys != [] {
      var init := keys[..|keys| - 1];
      var k := keys[|keys| - 1];
      PropertyTextsShort(init, values);
      var p := PropertyTexts(keys, values);
      assert p == PropertyTexts(init, values) + [k + ":" + ShortenVal(values[k])];
      forall i | 0 <= i < |keys|
        ensures p[i] == keys[i] + ":" + ShortenVal(values[keys[i]])
      {
        if i < |init| {
          assert keys[i] == init[i];
        }
      }
    }
  }

  // ---------------------------------------------------------------------
  // The whole conversion

  /** The summary's fixed text; the opening parenthesis is kept apart so that its first character is visible to the prover. */
  const SummaryHead: string := "(" + "Unity YAML Content: Structured hierarchy not found, returning summary)\nObjects found: "

  /** The text returned when no root transform exists. */
  function Summary(count: nat): (r: string)
    ensures IsTrimmed(r)
  {
    var digits := NatToString(count);
    var r := SummaryHead + digits;
    assert r[0] == '(';
    assert r[|r| - 1] == digits[|digits| - 1];
    r
  }

  /** The printed tree of a linked store, as the StringBuilder's text. */
  function Rendered(objs: Dict<UnityObject>): string
    requires StoreValid(objs)
  {
    Concat(ForestLines(objs, [], Kids(objs, [])))
  }

  /** The printed tree is one line per printed chain, in printing order. */
  lemma RenderedIsLines(objs: Dict<UnityObject>)
    requires StoreValid(objs)
    ensures EndsStored(objs, Printed(objs))
    ensures Rendered(objs) == Concat(LineTexts(objs, Printed(objs)))
  {
    ForestLinesAreForest(objs, [], Kids(objs, []));
  }

  /** UnityCompactConverter.Convert, as a function of the text. */
  function Converted(s: string): (r: string)
    ensures Headers(s) == [] ==> r == s
    ensures Headers(s) != [] ==> IsTrimmed(r)
  {
    if Headers(s) == [] then s
    else
      var objs := StoreAll(Pieces(s));
      var linked := WithChildren(objs, objs.keys);
      WithChildrenSkeleton(objs, objs.keys);
      if RootsIn(objs, objs.keys) == [] then Summary(Count(objs))
      else Trim(Rendered(linked))
  }

  /** Text in which no line starts with a header comes back unchanged. */
  lemma NoHeaderPassThrough(s: string)
    requires forall q :: 0 <= q < |s| && LineStart(s, q) ==> HeaderAt(s, q).None?
    ensures Converted(s) == s
  {
    HeadersIff(s);
  }

  /** Headers of ignored classes only: the summary with a count of zero. */
  lemma AllIgnoredSummary(s: string)
    requires Headers(s) != []
    requires forall i :: 0 <= i < |Headers(s)| ==> IsIgnoredClass(Headers(s)[i].classId)
    ensures Converted(s) == Summary(0)
  {
    var ps := Pieces(s);
    assert forall i :: 0 <= i < |ps| ==> ps[i].classId == Headers(s)[i].classId;
    AllIgnoredStoresNothing(ps);
  }
}
