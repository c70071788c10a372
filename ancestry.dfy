/**
 * Parent chains of a forest, as values.
 *
 * `anc[n]` lists the strict ancestors of n, parent first. The scene graph keeps
 * this list for every display object and states its tree invariant through
 * `Consistent`; the lemmas here are what the walks up the parent chain
 * (Root, FindCommonParent, GetTransformationMatrix) and re-parenting
 * (AddChild, RemoveChild) rely on.
 */
module Ancestry {

  /** n's ancestor list is its parent followed by the parent's ancestor list. */
  ghost predicate LinkOk<T>(anc: map<T, seq<T>>, n: T)
    requires n in anc
  {
    anc[n] != [] ==> anc[n][0] in anc && anc[n][1..] == anc[anc[n][0]]
  }

  /**
   * Every ancestor list is consistent. (The trigger keeps the solver from
   * following parent links without end.)
   */
  ghost predicate Consistent<T>(anc: map<T, seq<T>>)
  {
    forall n {:trigger LinkOk(anc, n)} | n in anc :: LinkOk(anc, n)
  }

  /** The consistency condition, for one node. */
  lemma Link<T>(anc: map<T, seq<T>>, n: T)
    requires Consistent(anc) && n in anc
    ensures anc[n] != [] ==> anc[n][0] in anc && anc[n][1..] == anc[anc[n][0]]
  {
    assert LinkOk(anc, n);
  }

  /** n followed by its ancestors: the nodes a walk up from n visits. */
  function Chain<T>(anc: map<T, seq<T>>, n: T): (s: seq<T>)
    requires n in anc
    ensures |s| >= 1 && s[0] == n
  {
    [n] + anc[n]
  }

  /** The topmost node above n. */
  function Root<T>(anc: map<T, seq<T>>, n: T): T
    requires n in anc
  {
    Chain(anc, n)[|Chain(anc, n)| - 1]
  }

  /** The prefix of `s` up to and including the first occurrence of `c`. */
  function Upto<T(==)>(s: seq<T>, c: T): (r: seq<T>)
    requires c in s
    ensures 1 <= |r| <= |s| && r == s[..|r|] && r[|r| - 1] == c && c !in r[..|r| - 1]
  {
    if s[0] == c then [c] else [s[0]] + Upto(s[1..], c)
  }

  /** The part of `s` before the first occurrence of `c`, or all of `s` when `c` is not in it. */
  function Before<T(==)>(s: seq<T>, c: T): (r: seq<T>)
    ensures |r| <= |s| && r == s[..|r|] && c !in r
    ensures |r| < |s| <==> c in s
    ensures |r| < |s| ==> s[|r|] == c
  {
    if s == [] then [] else if s[0] == c then [] else [s[0]] + Before(s[1..], c)
  }

  ghost predicate NoDuplicates<T>(s: seq<T>)
  {
    forall i, j :: 0 <= i < j < |s| ==> s[i] != s[j]
  }

  /** Every ancestor's own ancestor list is the rest of the list after it. */
  lemma {:induction false} AncestorSuffix<T>(anc: map<T, seq<T>>, n: T, k: nat)
    requires Consistent(anc) && n in anc && k < |anc[n]|
    ensures anc[n][k] in anc && anc[n][k + 1..] == anc[anc[n][k]]
    decreases k
  {
    Link(anc, n);
    if k > 0 {
      var p := anc[n][0];
      AncestorSuffix(anc, p, k - 1);
      assert anc[n][k] == anc[p][k - 1];
      assert anc[n][k + 1..] == anc[p][k..];
    }
  }

  /** Walking up from any node of n's chain visits exactly the rest of n's chain. */
  lemma ChainSuffix<T>(anc: map<T, seq<T>>, n: T, k: nat)
    requires Consistent(anc) && n in anc && k < |Chain(anc, n)|
    ensures Chain(anc, n)[k] in anc && Chain(anc, n)[k..] == Chain(anc, Chain(anc, n)[k])
  {
    if k > 0 {
      AncestorSuffix(anc, n, k - 1);
    }
  }

  /** No node is its own ancestor: parent links never form a cycle. */
  lemma NotOwnAncestor<T>(anc: map<T, seq<T>>, n: T)
    requires Consistent(anc) && n in anc
    ensures n !in anc[n]
  {
    forall k | 0 <= k < |anc[n]| ensures anc[n][k] != n {
      AncestorSuffix(anc, n, k);
    }
  }

  /** A chain visits every node at most once. */
  lemma ChainHasNoDuplicates<T>(anc: map<T, seq<T>>, n: T)
    requires Consistent(anc) && n in anc
    ensures NoDuplicates(Chain(anc, n))
  {
    var s := Chain(anc, n);
    forall i, j | 0 <= i < j < |s| ensures s[i] != s[j] {
      ChainSuffix(anc, n, i);
      NotOwnAncestor(anc, s[i]);
      assert s[j] == Chain(anc, s[i])[j - i];
    }
  }

  /** A sequence without repeats has as many distinct elements as it is long. */
  lemma {:induction false} DistinctElements<T>(s: seq<T>)
    requires NoDuplicates(s)
    ensures |set x | x in s| == |s|
  {
    if s != [] {
      DistinctElements(s[1..]);
      assert (set x | x in s) == {s[0]} + (set x | x in s[1..]);
      assert s[0] !in s[1..];
    }
  }

  /** A node has fewer ancestors than the forest has nodes. */
  lemma ChainFits<T>(anc: map<T, seq<T>>, n: T)
    requires Consistent(anc) && n in anc
    ensures |anc[n]| < |anc.Keys|
  {
    ChainHasNoDuplicates(anc, n);
    ChainInForest(anc, n);
    var c := Chain(anc, n);
    DistinctElements(c);
    var elems := set x | x in c;
    assert elems <= anc.Keys;
    SubsetCard(elems, anc.Keys);
  }

  /** A subset is no larger than the set around it. */
  lemma {:induction false} SubsetCard<T>(a: set<T>, b: set<T>)
    requires a <= b
    ensures |a| <= |b|
  {
    if a != {} {
      var x :| x in a;
      SubsetCard(a - {x}, b - {x});
    }
  }

  /** Every node of a chain is in the forest. */
  lemma ChainInForest<T>(anc: map<T, seq<T>>, n: T)
    requires Consistent(anc) && n in anc
    ensures forall x :: x in Chain(anc, n) ==> x in anc
  {
    forall k | 0 <= k < |Chain(anc, n)| ensures Chain(anc, n)[k] in anc {
      ChainSuffix(anc, n, k);
    }
  }

  /** A chain through c is the part up to c followed by c's ancestors. */
  lemma ChainThrough<T>(anc: map<T, seq<T>>, n: T, c: T)
    requires Consistent(anc) && n in anc && c in Chain(anc, n)
    ensures c in anc && Chain(anc, n) == Upto(Chain(anc, n), c) + anc[c]
  {
    var s := Chain(anc, n);
    var u := Upto(s, c);
    var k := |u| - 1;
    assert s[k] == c;
    ChainSuffix(anc, n, k);
    assert s[k + 1..] == s[k..][1..] == anc[c];
    assert s[..k + 1] == u;
    assert s == s[..k + 1] + s[k + 1..];
  }

  /** x is above (or is) y, and y above (or is) z, so x is above (or is) z. */
  lemma ChainTransitive<T>(anc: map<T, seq<T>>, x: T, y: T, z: T)
    requires Consistent(anc) && z in anc && y in Chain(anc, z)
    ensures y in anc && Chain(anc, y) <= Chain(anc, z)[|Upto(Chain(anc, z), y)| - 1..]
    ensures x in Chain(anc, y) ==> x in Chain(anc, z)
  {
    var k := |Upto(Chain(anc, z), y)| - 1;
    ChainSuffix(anc, z, k);
  }

  /**
   * The first node of b's chain that is also on a's chain, if any: the node
   * FindCommonParent returns.
   */
  function FirstCommon<T(==)>(a: seq<T>, b: seq<T>): (r: seq<T>)
    ensures |r| <= 1
    ensures r != [] ==> r[0] in a && r[0] in b
    ensures r == [] ==> forall x :: x in b ==> x !in a
  {
    if b == [] then [] else if b[0] in a then [b[0]] else FirstCommon(a, b[1..])
  }

  /** The search for the first common node passes over a node of b that is not in a. */
  lemma FirstCommonSkip<T>(a: seq<T>, b: seq<T>, j: nat)
    requires j < |b| && b[j] !in a
    ensures FirstCommon(a, b[j..]) == FirstCommon(a, b[j + 1..])
  {
    assert b[j..][1..] == b[j + 1..];
  }

  /**
   * The common parent is the lowest common ancestor: every node on both chains
   * lies on the chain above it.
   */
  lemma {:induction false} FirstCommonIsLowest<T>(anc: map<T, seq<T>>, a: T, b: T, x: T)
    requires Consistent(anc) && a in anc && b in anc
    requires x in Chain(anc, a) && x in Chain(anc, b)
    ensures FirstCommon(Chain(anc, a), Chain(anc, b)) != []
    ensures FirstCommon(Chain(anc, a), Chain(anc, b))[0] in anc
    ensures x in Chain(anc, FirstCommon(Chain(anc, a), Chain(anc, b))[0])
  {
    var ca, cb := Chain(anc, a), Chain(anc, b);
    assert FirstCommon(ca, cb) != [];
    var k := FirstCommonIndex(ca, cb);
    var f := cb[k];
    ChainSuffix(anc, b, k);
    var j := IndexOf(cb, x);
    assert k <= j;
    assert cb[k..][j - k] == x;
  }

  /** The position of x in s. */
  lemma IndexOf<T>(s: seq<T>, x: T) returns (j: nat)
    requires x in s
    ensures j < |s| && s[j] == x
  {
    j :| 0 <= j < |s| && s[j] == x;
  }

  /** The index in b of FirstCommon(a, b). */
  lemma {:induction false} FirstCommonIndex<T>(a: seq<T>, b: seq<T>) returns (k: nat)
    requires FirstCommon(a, b) != []
    ensures k < |b| && b[k] == FirstCommon(a, b)[0]
    ensures forall j :: 0 <= j < k ==> b[j] !in a
  {
    if b[0] in a {
      k := 0;
    } else {
      var k' := FirstCommonIndex(a, b[1..]);
      k := k' + 1;
    }
  }

  /** Two nodes have a common ancestor-or-self exactly when they share a root. */
  lemma ChainsMeetIffSameRoot<T>(anc: map<T, seq<T>>, a: T, b: T)
    requires Consistent(anc) && a in anc && b in anc
    ensures FirstCommon(Chain(anc, a), Chain(anc, b)) != [] <==> Root(anc, a) == Root(anc, b)
  {
    var ca, cb := Chain(anc, a), Chain(anc, b);
    if FirstCommon(ca, cb) != [] {
      var x := FirstCommon(ca, cb)[0];
      RootThrough(anc, a, x);
      RootThrough(anc, b, x);
    } else {
      assert Root(anc, b) in cb && Root(anc, a) in ca;
    }
  }

  /** Every node on n's chain has the same root as n. */
  lemma RootThrough<T>(anc: map<T, seq<T>>, n: T, x: T)
    requires Consistent(anc) && n in anc && x in Chain(anc, n)
    ensures x in anc && Root(anc, x) == Root(anc, n)
  {
    var k :| 0 <= k < |Chain(anc, n)| && Chain(anc, n)[k] == x;
    ChainSuffix(anc, n, k);
  }

  /**
   * The ancestor lists after c's subtree is hung under a new chain `tail`
   * ([] to make c a root): every node whose chain passes through c keeps its
   * chain up to c and continues with `tail`; every other node is unchanged.
   */
  function Reanchored<T(==)>(anc: map<T, seq<T>>, c: T, tail: seq<T>): (r: map<T, seq<T>>)
    ensures r.Keys == anc.Keys
  {
    map n | n in anc :: Reanchor(anc, c, tail, n)
  }

  /** n's ancestor list once c's subtree hangs under `tail`. */
  function Reanchor<T(==)>(anc: map<T, seq<T>>, c: T, tail: seq<T>, n: T): seq<T>
    requires n in anc
  {
    if c in Chain(anc, n) then (Upto(Chain(anc, n), c) + tail)[1..] else anc[n]
  }

  /**
   * Re-parenting keeps the forest consistent, provided the new parent is not
   * in c's own subtree.
   */
  lemma ReanchorConsistent<T>(anc: map<T, seq<T>>, c: T, tail: seq<T>)
    requires Consistent(anc) && c in anc
    requires tail != [] ==> tail[0] in anc && tail[1..] == anc[tail[0]] && c !in Chain(anc, tail[0])
    ensures Consistent(Reanchored(anc, c, tail))
    ensures Reanchored(anc, c, tail)[c] == tail
    ensures forall n :: n in anc && c !in Chain(anc, n) ==> Reanchored(anc, c, tail)[n] == anc[n]
  {
    var r := Reanchored(anc, c, tail);
    forall n | n in r && r[n] != []
      ensures r[n][0] in r && r[n][1..] == r[r[n][0]]
    {
      ReanchorAt(anc, c, tail, n);
    }
    assert Upto(Chain(anc, c), c) == [c];
  }

  /** The consistency condition of one node after re-parenting. */
  lemma ReanchorAt<T>(anc: map<T, seq<T>>, c: T, tail: seq<T>, n: T)
    requires Consistent(anc) && c in anc && n in anc
    requires tail != [] ==> tail[0] in anc && tail[1..] == anc[tail[0]] && c !in Chain(anc, tail[0])
    requires Reanchored(anc, c, tail)[n] != []
    ensures Reanchored(anc, c, tail)[n][0] in anc
    ensures Reanchored(anc, c, tail)[n][1..] == Reanchored(anc, c, tail)[Reanchored(anc, c, tail)[n][0]]
  {
    Link(anc, n);
    if c !in Chain(anc, n) {
      ReanchorOutside(anc, c, tail, n);
    } else if n == c {
      assert Upto(Chain(anc, c), c) == [c];
    } else {
      ReanchorInside(anc, c, tail, n);
    }
  }

  /** A node outside c's subtree, whose parent is then outside it too. */
  lemma ReanchorOutside<T>(anc: map<T, seq<T>>, c: T, tail: seq<T>, n: T)
    requires Consistent(anc) && c in anc && n in anc && c !in Chain(anc, n) && anc[n] != []
    ensures anc[n][0] in anc
    ensures Reanchored(anc, c, tail)[n] == anc[n]
    ensures Reanchored(anc, c, tail)[anc[n][0]] == anc[anc[n][0]] == anc[n][1..]
  {
    Link(anc, n);
    var p := anc[n][0];
    assert Chain(anc, p) == anc[n];
  }

  /** A strict descendant of c: it keeps its parent, and its list follows the parent's new one. */
  lemma ReanchorInside<T>(anc: map<T, seq<T>>, c: T, tail: seq<T>, n: T)
    requires Consistent(anc) && c in anc && n in anc && c in Chain(anc, n) && n != c
    ensures anc[n] != [] && anc[n][0] in anc
    ensures Reanchored(anc, c, tail)[n] != [] && Reanchored(anc, c, tail)[n][0] == anc[n][0]
    ensures Reanchored(anc, c, tail)[n][1..] == Reanchored(anc, c, tail)[anc[n][0]]
  {
    Link(anc, n);
    var p := anc[n][0];
    var u := DescendantPrefix(anc, c, n);
    var r := Reanchored(anc, c, tail);
    assert r[n] == u + tail by {
      ReanchoredAt(anc, c, tail, n);
      DropHead(n, u, tail);
    }
    assert r[p] == (u + tail)[1..] by {
      ReanchoredAt(anc, c, tail, p);
    }
  }

  /** Dropping the head of a list built as an element, then u, then t. */
  lemma DropHead<T>(x: T, u: seq<T>, t: seq<T>)
    ensures ([x] + u + t)[1..] == u + t
  {
    var s := [x] + u + t;
    assert forall k :: 0 <= k < |u + t| ==> s[1..][k] == (u + t)[k];
  }

  /** The chain of a strict descendant of c, up to c, is the node followed by its parent's. */
  lemma DescendantPrefix<T>(anc: map<T, seq<T>>, c: T, n: T) returns (u: seq<T>)
    requires Consistent(anc) && n in anc && c in Chain(anc, n) && n != c
    ensures anc[n] != [] && anc[n][0] in anc && c in Chain(anc, anc[n][0])
    ensures u == Upto(Chain(anc, anc[n][0]), c) && u != [] && u[0] == anc[n][0]
    ensures Upto(Chain(anc, n), c) == [n] + u
  {
    Link(anc, n);
    var p := anc[n][0];
    var cn := Chain(anc, n);
    assert cn[1..] == Chain(anc, p);
    u := Upto(Chain(anc, p), c);
  }

  /** One entry of the re-anchored map. */
  lemma ReanchoredAt<T>(anc: map<T, seq<T>>, c: T, tail: seq<T>, n: T)
    requires n in anc
    ensures Reanchored(anc, c, tail)[n]
      == if c in Chain(anc, n) then (Upto(Chain(anc, n), c) + tail)[1..] else anc[n]
  {
  }

  /** Re-parenting c leaves every other node's parent as it was. */
  lemma ReanchorKeepsParent<T>(anc: map<T, seq<T>>, c: T, tail: seq<T>, n: T)
    requires Consistent(anc) && c in anc && n in anc && n != c
    ensures (Reanchored(anc, c, tail)[n] == []) == (anc[n] == [])
    ensures anc[n] != [] ==> Reanchored(anc, c, tail)[n][0] == anc[n][0]
  {
    if c in Chain(anc, n) {
      ReanchorInside(anc, c, tail, n);
    }
  }

  /** A new node with no parent joins the forest. */
  lemma AddRoot<T>(anc: map<T, seq<T>>, x: T)
    requires Consistent(anc) && x !in anc
    ensures Consistent(anc[x := []])
  {
    var a := anc[x := []];
    forall n | n in a ensures LinkOk(a, n) {
      if n != x {
        Link(anc, n);
      }
    }
  }

  /** Hanging a root under nothing changes nothing. */
  lemma ReanchorRootUnchanged<T>(anc: map<T, seq<T>>, c: T)
    requires Consistent(anc) && c in anc && anc[c] == []
    ensures Reanchored(anc, c, []) == anc
  {
    forall n | n in anc ensures Reanchored(anc, c, [])[n] == anc[n] {
      if c in Chain(anc, n) {
        ChainThrough(anc, n, c);
      }
    }
  }

  /** The prefix up to c of a sequence that already ends at its first c is the sequence itself. */
  lemma {:induction false} UptoOfUpto<T>(s: seq<T>, c: T)
    requires c in s
    ensures Upto(Upto(s, c), c) == Upto(s, c)
  {
    if s[0] != c {
      UptoOfUpto(s[1..], c);
    }
  }

  /** One entry of DetachThenAttach. */
  lemma DetachThenAttachAt<T>(anc: map<T, seq<T>>, c: T, tail: seq<T>, n: T)
    requires Consistent(anc) && c in anc && n in anc
    ensures Reanchored(Reanchored(anc, c, []), c, tail)[n] == Reanchored(anc, c, tail)[n]
  {
    var a1 := Reanchored(anc, c, []);
    ReanchoredAt(anc, c, [], n);
    ReanchoredAt(a1, c, tail, n);
    ReanchoredAt(anc, c, tail, n);
    if c in Chain(anc, n) {
      var u := Upto(Chain(anc, n), c);
      assert u + [] == u;
      assert u[0] == n;
      assert Chain(a1, n) == [n] + u[1..] == u;
      UptoOfUpto(Chain(anc, n), c);
    }
  }

  /**
   * Detaching c and then hanging it under `tail` is the same as hanging it
   * under `tail` directly.
   */
  lemma DetachThenAttach<T>(anc: map<T, seq<T>>, c: T, tail: seq<T>)
    requires Consistent(anc) && c in anc
    ensures Reanchored(Reanchored(anc, c, []), c, tail) == Reanchored(anc, c, tail)
  {
    forall n | n in anc
      ensures Reanchored(Reanchored(anc, c, []), c, tail)[n] == Reanchored(anc, c, tail)[n]
    {
      DetachThenAttachAt(anc, c, tail, n);
    }
  }

  /** Detaching c leaves the chain of any node outside c's subtree as it was. */
  lemma DetachKeepsChain<T>(anc: map<T, seq<T>>, c: T, p: T)
    requires Consistent(anc) && c in anc && p in anc && c !in Chain(anc, p)
    ensures Chain(Reanchored(anc, c, []), p) == Chain(anc, p)
  {
    ReanchoredAt(anc, c, [], p);
  }

  /** An ancestor has fewer ancestors than its descendant. */
  lemma AncestorIsHigher<T>(anc: map<T, seq<T>>, n: T, x: T)
    requires Consistent(anc) && n in anc && x in anc[n]
    ensures x in anc && |anc[x]| < |anc[n]|
  {
    var k := IndexOf(anc[n], x);
    AncestorSuffix(anc, n, k);
  }

  /** Two nodes that lie on each other's chains are the same node. */
  lemma AncestorAntisymmetric<T>(anc: map<T, seq<T>>, x: T, y: T)
    requires Consistent(anc) && x in anc && y in anc
    requires x in Chain(anc, y) && y in Chain(anc, x)
    ensures x == y
  {
    if x != y {
      AncestorIsHigher(anc, y, x);
      AncestorIsHigher(anc, x, y);
    }
  }

  /** The lowest common ancestor does not depend on which chain is searched. */
  lemma FirstCommonSymmetric<T>(anc: map<T, seq<T>>, a: T, b: T)
    requires Consistent(anc) && a in anc && b in anc
    ensures FirstCommon(Chain(anc, a), Chain(anc, b)) == FirstCommon(Chain(anc, b), Chain(anc, a))
  {
    var ab, ba := FirstCommon(Chain(anc, a), Chain(anc, b)), FirstCommon(Chain(anc, b), Chain(anc, a));
    if ab != [] {
      FirstCommonIsLowest(anc, b, a, ab[0]);
      FirstCommonIsLowest(anc, a, b, ba[0]);
      AncestorAntisymmetric(anc, ab[0], ba[0]);
    }
  }

  /** When b is on a's chain, the walks meet at b. */
  lemma FirstCommonOfAncestor<T>(anc: map<T, seq<T>>, a: T, b: T)
    requires a in anc && b in anc && b in Chain(anc, a)
    ensures FirstCommon(Chain(anc, a), Chain(anc, b)) == [b]
  {
  }

  /** When a is b's parent, the walks meet at a. */
  lemma FirstCommonOfChild<T>(anc: map<T, seq<T>>, a: T, b: T)
    requires Consistent(anc) && a in anc && b in anc && anc[b] != [] && anc[b][0] == a
    ensures FirstCommon(Chain(anc, a), Chain(anc, b)) == [a]
  {
    Link(anc, b);
    if b in Chain(anc, a) {
      AncestorAntisymmetric(anc, a, b);
      NotOwnAncestor(anc, b);
    }
    assert Chain(anc, b)[1..] == Chain(anc, a);
  }

  /** The root has no ancestors. */
  lemma RootIsRoot<T>(anc: map<T, seq<T>>, n: T)
    requires Consistent(anc) && n in anc
    ensures Root(anc, n) in anc && anc[Root(anc, n)] == [] && Root(anc, n) in Chain(anc, n)
  {
    ChainSuffix(anc, n, |Chain(anc, n)| - 1);
  }
}
