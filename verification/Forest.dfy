/** A forest of nodes, given by the parent of each node that has one and by the ancestors of
    every node, and the ways in which it changes. */
module Forests {

  /** Where a field map is: in a slot of an arena, in a block of the heap, or in a variable
      of the program. */
  datatype Addr = Slot(arena: nat, index: nat) | Block(id: nat) | Variable(id: nat)

  datatype Forest = Forest(nodes: set<Addr>, parent: map<Addr, Addr>, anc: map<Addr, set<Addr>>)

  /** A node's ancestors are its parent and the parent's ancestors, and never itself. */
  ghost predicate Rooted(f: Forest) {
    && f.anc.Keys == f.nodes && f.parent.Keys <= f.nodes
    && (forall c {:trigger IsChild(f, c)} :: c in f.parent ==> IsChild(f, c))
    && (forall x {:trigger IsNode(f, x)} :: x in f.nodes ==> IsNode(f, x))
    && forall x, y :: x in f.nodes && y in f.anc[x] ==> y in f.nodes && f.anc[y] <= f.anc[x]
  }

  ghost predicate IsChild(f: Forest, c: Addr)
    requires f.anc.Keys == f.nodes && c in f.parent && c in f.nodes
  {
    f.parent[c] in f.nodes && f.anc[c] == f.anc[f.parent[c]] + {f.parent[c]}
  }

  ghost predicate IsNode(f: Forest, x: Addr)
    requires f.anc.Keys == f.nodes && x in f.nodes
  {
    x !in f.anc[x] && f.anc[x] <= f.nodes && (x !in f.parent ==> f.anc[x] == {})
  }

  function Under(f: Forest, x: Addr): set<Addr> {
    set y | y in f.anc && x in f.anc[y]
  }

  /** A node and all below it. */
  function Below(f: Forest, x: Addr): set<Addr> {
    Under(f, x) + {x}
  }

  /** A node and all above it. */
  function Up(f: Forest, x: Addr): set<Addr>
    requires x in f.anc
  {
    f.anc[x] + {x}
  }

  predicate Unrelated(f: Forest, x: Addr, y: Addr)
    requires x in f.anc && y in f.anc
  {
    x != y && x !in f.anc[y] && y !in f.anc[x]
  }

  // ----- changes

  function WithNode(f: Forest, x: Addr): Forest {
    Forest(f.nodes + {x}, f.parent, f.anc[x := {}])
  }

  function Without(f: Forest, gone: set<Addr>): Forest {
    Forest(f.nodes - gone, f.parent - gone, f.anc - gone)
  }

  /** g, which has no parent, is put under h. */
  function Attached(f: Forest, h: Addr, g: Addr): Forest
    requires f.anc.Keys == f.nodes && h in f.nodes
  {
    Forest(f.nodes, f.parent[g := h], map y | y in f.nodes :: AncAttached(f, h, g, y))
  }

  function AncAttached(f: Forest, h: Addr, g: Addr, y: Addr): set<Addr>
    requires f.anc.Keys == f.nodes && h in f.nodes && y in f.nodes
  {
    if y == g || g in f.anc[y] then f.anc[y] + Up(f, h) else f.anc[y]
  }

  /** g loses its parent. */
  function Detached(f: Forest, g: Addr): Forest
    requires f.anc.Keys == f.nodes && g in f.nodes
  {
    Forest(f.nodes, f.parent - {g}, map y | y in f.nodes :: AncDetached(f, g, y))
  }

  function AncDetached(f: Forest, g: Addr, y: Addr): set<Addr>
    requires f.anc.Keys == f.nodes && g in f.nodes && y in f.nodes
  {
    if y == g || g in f.anc[y] then f.anc[y] - f.anc[g] else f.anc[y]
  }

  lemma NodeAdded(f: Forest, x: Addr)
    requires Rooted(f) && x !in f.nodes
    ensures Rooted(WithNode(f, x))
  {
    var r := WithNode(f, x);
    forall c | c in r.parent
      ensures c in r.nodes && IsChild(r, c)
    {
      assert IsChild(f, c);
    }
    forall y | y in r.nodes
      ensures IsNode(r, y)
    {
      assert y != x ==> IsNode(f, y);
    }
  }

  /** A subtree can go as a whole. */
  lemma SubtreeRemoved(f: Forest, x: Addr)
    requires Rooted(f) && x in f.nodes
    ensures Rooted(Without(f, Below(f, x)))
  {
    var r := Without(f, Below(f, x));
    forall c | c in r.parent
      ensures c in r.nodes && IsChild(r, c)
    {
      RemovedChild(f, x, c);
    }
    forall y | y in r.nodes
      ensures IsNode(r, y)
    {
      RemovedNode(f, x, y);
    }
  }

  lemma RemovedChild(f: Forest, x: Addr, c: Addr)
    requires Rooted(f) && x in f.nodes && c in f.parent && c !in Below(f, x)
    ensures c in f.nodes && IsChild(Without(f, Below(f, x)), c)
  {
    assert IsChild(f, c);
    assert f.parent[c] !in Below(f, x);
  }

  lemma RemovedNode(f: Forest, x: Addr, y: Addr)
    requires Rooted(f) && x in f.nodes && y in f.nodes && y !in Below(f, x)
    ensures IsNode(Without(f, Below(f, x)), y)
  {
    assert IsNode(f, y);
    forall z | z in f.anc[y]
      ensures z !in Below(f, x)
    {
      assert f.anc[z] <= f.anc[y];
    }
  }

  /** A child's parent is in the same subtree, unless the child is its root. */
  lemma ParentBelow(f: Forest, g: Addr, c: Addr)
    requires Rooted(f) && c in f.parent && c != g
    ensures c in Below(f, g) <==> f.parent[c] in Below(f, g)
  {
    assert IsChild(f, c);
  }

  /** Nothing above a node is below it. */
  lemma AboveNotBelow(f: Forest, g: Addr, y: Addr)
    requires Rooted(f) && g in f.nodes && y in f.anc[g]
    ensures y !in Below(f, g)
  {
    assert IsNode(f, g) && f.anc[y] <= f.anc[g];
  }

  lemma AttachedChild(f: Forest, h: Addr, g: Addr, c: Addr)
    requires Rooted(f) && h in f.nodes && g in f.nodes && g !in f.parent && h !in Below(f, g)
    requires c in f.parent || c == g
    ensures c in f.nodes && IsChild(Attached(f, h, g), c)
  {
    assert IsNode(f, g) && IsNode(f, h);
    if c == g {
      assert AncAttached(f, h, g, g) == AncAttached(f, h, g, h) + {h};
    } else {
      var p := f.parent[c];
      assert IsChild(f, c);
      ParentBelow(f, g, c);
      assert AncAttached(f, h, g, c) == AncAttached(f, h, g, p) + {p};
    }
  }

  lemma AttachedNode(f: Forest, h: Addr, g: Addr, y: Addr)
    requires Rooted(f) && h in f.nodes && g in f.nodes && g !in f.parent && h !in Below(f, g)
    requires y in f.nodes
    ensures IsNode(Attached(f, h, g), y)
  {
    assert IsNode(f, g) && IsNode(f, h) && IsNode(f, y);
    assert y in f.anc[h] ==> f.anc[y] <= f.anc[h];
  }

  lemma SubtreeAttached(f: Forest, h: Addr, g: Addr)
    requires Rooted(f) && h in f.nodes && g in f.nodes && g !in f.parent && h !in Below(f, g)
    ensures Rooted(Attached(f, h, g))
  {
    var r := Attached(f, h, g);
    forall c | c in r.parent
      ensures c in r.nodes && IsChild(r, c)
    {
      AttachedChild(f, h, g, c);
    }
    forall y | y in r.nodes
      ensures IsNode(r, y)
    {
      AttachedNode(f, h, g, y);
    }
    forall x, y | x in r.nodes && y in r.anc[x]
      ensures r.anc[y] <= r.anc[x]
    {
      AttachedTransitive(f, h, g, x, y);
    }
  }

  lemma AttachedTransitive(f: Forest, h: Addr, g: Addr, x: Addr, y: Addr)
    requires Rooted(f) && h in f.nodes && g in f.nodes && g !in f.parent && h !in Below(f, g)
    requires x in f.nodes && y in Attached(f, h, g).anc[x]
    ensures y in f.nodes && Attached(f, h, g).anc[y] <= Attached(f, h, g).anc[x]
  {
    assert IsNode(f, x) && IsNode(f, h);
    if y in f.anc[x] {
      assert f.anc[y] <= f.anc[x];
      if y in Below(f, g) {
        assert x in Below(f, g);
      }
    } else if y == h {
    } else {
      assert y in f.anc[h] && f.anc[y] <= f.anc[h];
    }
  }

  lemma DetachedChild(f: Forest, g: Addr, c: Addr)
    requires Rooted(f) && g in f.parent && c in f.parent && c != g
    ensures c in f.nodes && IsChild(Detached(f, g), c)
  {
    var p := f.parent[c];
    assert IsChild(f, c);
    ParentBelow(f, g, c);
    if c in Below(f, g) {
      DetachedParent(f, g, p);
    }
    assert AncDetached(f, g, c) == AncDetached(f, g, p) + {p};
  }

  lemma DetachedParent(f: Forest, g: Addr, p: Addr)
    requires Rooted(f) && g in f.nodes && p in Below(f, g)
    ensures p in f.nodes && Up(f, p) - f.anc[g] == AncDetached(f, g, p) + {p}
  {
    BelowNotAbove(f, g, p);
  }

  lemma BelowNotAbove(f: Forest, g: Addr, p: Addr)
    requires Rooted(f) && g in f.nodes && p in Below(f, g)
    ensures p !in f.anc[g]
  {
    if p in f.anc[g] {
      AboveNotBelow(f, g, p);
    }
  }

  lemma DetachedNode(f: Forest, g: Addr, y: Addr)
    requires Rooted(f) && g in f.parent && y in f.nodes
    ensures IsNode(Detached(f, g), y)
  {
    assert IsNode(f, y);
  }

  lemma SubtreeDetached(f: Forest, g: Addr)
    requires Rooted(f) && g in f.parent
    ensures Rooted(Detached(f, g))
  {
    var r := Detached(f, g);
    forall c | c in r.parent
      ensures c in r.nodes && IsChild(r, c)
    {
      DetachedChild(f, g, c);
    }
    forall y | y in r.nodes
      ensures IsNode(r, y)
    {
      DetachedNode(f, g, y);
    }
    forall x, y | x in r.nodes && y in r.anc[x]
      ensures r.anc[y] <= r.anc[x]
    {
      DetachedTransitive(f, g, x, y);
    }
  }

  lemma DetachedTransitive(f: Forest, g: Addr, x: Addr, y: Addr)
    requires Rooted(f) && g in f.parent && x in f.nodes && y in Detached(f, g).anc[x]
    ensures y in f.nodes && Detached(f, g).anc[y] <= Detached(f, g).anc[x]
  {
    assert IsNode(f, x);
    Transitive(f, x, y);
    if x == g || g in f.anc[x] {
      BelowOrAbove(f, x, y, g);
    } else {
      assert g !in f.anc[y] && y != g;
    }
  }

  lemma Transitive(f: Forest, x: Addr, y: Addr)
    requires Rooted(f) && x in f.nodes && y in f.anc[x]
    ensures y in f.nodes && f.anc[y] <= f.anc[x]
  {
    assert IsNode(f, x);
  }

  /** The ancestors of one node are ancestors of each other. */
  lemma {:induction false} BelowOrAbove(f: Forest, x: Addr, y: Addr, g: Addr)
    requires Rooted(f) && x in f.nodes && y in f.anc[x] && g in f.anc[x] + {x} && g in f.nodes
    ensures y in Below(f, g) || y in f.anc[g]
    decreases f.anc[x]
  {
    assert IsNode(f, x);
    if g != x {
      assert IsChild(f, x);
      var p := f.parent[x];
      if y != p {
        assert IsNode(f, p);
        BelowOrAbove(f, p, y, g);
      }
    }
  }

  /** A node without children has nothing below it. */
  lemma {:induction false} NothingUnder(f: Forest, x: Addr, y: Addr)
    requires Rooted(f) && forall c :: c in f.parent ==> f.parent[c] != x
    requires y in f.nodes
    ensures x !in f.anc[y]
    decreases f.anc[y]
  {
    assert IsNode(f, y);
    if y in f.parent {
      assert IsChild(f, y) && IsNode(f, f.parent[y]);
      NothingUnder(f, x, f.parent[y]);
    }
  }

  lemma BelowDetached(f: Forest, g: Addr)
    requires Rooted(f) && g in f.parent
    ensures Below(Detached(f, g), g) == Below(f, g)
  {
    assert IsNode(f, g);
  }

  // ----- two nodes exchange their children

  function Other(x: Addr, y: Addr, p: Addr): Addr {
    if p == x then y else if p == y then x else p
  }

  function Exchanged(f: Forest, x: Addr, y: Addr): Forest
    requires f.anc.Keys == f.nodes && x in f.nodes && y in f.nodes
  {
    Forest(f.nodes, map c | c in f.parent :: Other(x, y, f.parent[c]),
           map z | z in f.nodes :: AncExchanged(f, x, y, f.anc[z]))
  }

  function AncExchanged(f: Forest, x: Addr, y: Addr, up: set<Addr>): set<Addr>
    requires x in f.anc && y in f.anc
  {
    if x in up then up - Up(f, x) + Up(f, y) else if y in up then up - Up(f, y) + Up(f, x) else up
  }

  /** Nothing is below two unrelated nodes. */
  lemma NotBelowBoth(f: Forest, x: Addr, y: Addr, z: Addr)
    requires Rooted(f) && x in f.nodes && y in f.nodes && Unrelated(f, x, y) && z in f.nodes
    ensures !(x in f.anc[z] && y in f.anc[z])
  {
    if x in f.anc[z] && y in f.anc[z] {
      BelowOrAbove(f, z, x, y);
    }
  }

  lemma ExchangedChild(f: Forest, x: Addr, y: Addr, c: Addr)
    requires Rooted(f) && x in f.nodes && y in f.nodes && Unrelated(f, x, y) && c in f.parent
    ensures c in f.nodes && IsChild(Exchanged(f, x, y), c)
  {
    var p := f.parent[c];
    assert IsChild(f, c) && IsNode(f, p) && IsNode(f, x) && IsNode(f, y);
    if p == x || p == y {
      NewParent(f, x, y, p);
    } else {
      SameParent(f, x, y, p);
    }
  }

  /** A child of x is put under y, or the other way round. */
  lemma NewParent(f: Forest, x: Addr, y: Addr, p: Addr)
    requires Rooted(f) && x in f.nodes && y in f.nodes && Unrelated(f, x, y) && (p == x || p == y)
    ensures AncExchanged(f, x, y, Up(f, p)) == AncExchanged(f, x, y, f.anc[Other(x, y, p)]) + {Other(x, y, p)}
  {
    assert IsNode(f, x) && IsNode(f, y);
    var q := Other(x, y, p);
    assert AncExchanged(f, x, y, f.anc[q]) == f.anc[q];
    assert AncExchanged(f, x, y, Up(f, p)) == Up(f, q);
  }

  lemma SameParent(f: Forest, x: Addr, y: Addr, p: Addr)
    requires Rooted(f) && x in f.nodes && y in f.nodes && Unrelated(f, x, y) && p in f.nodes && p != x && p != y
    ensures AncExchanged(f, x, y, Up(f, p)) == AncExchanged(f, x, y, f.anc[p]) + {p}
  {
    NotBelowBoth(f, x, y, p);
    if x in f.anc[p] {
      NotUp(f, x, p);
    } else if y in f.anc[p] {
      NotUp(f, y, p);
    }
  }

  lemma NotUp(f: Forest, x: Addr, p: Addr)
    requires Rooted(f) && x in f.nodes && p in f.nodes && x in f.anc[p]
    ensures p !in Up(f, x)
  {
    assert IsNode(f, p) && IsNode(f, x) && f.anc[x] <= f.anc[p];
  }

  lemma ExchangedNode(f: Forest, x: Addr, y: Addr, z: Addr)
    requires Rooted(f) && x in f.nodes && y in f.nodes && Unrelated(f, x, y) && z in f.nodes
    ensures IsNode(Exchanged(f, x, y), z)
  {
    assert IsNode(f, x) && IsNode(f, y) && IsNode(f, z);
    if x in f.anc[z] {
      NotInUp(f, x, y, z);
    } else if y in f.anc[z] {
      NotInUp(f, y, x, z);
    }
  }

  /** What is below x is not at or above y. */
  lemma NotInUp(f: Forest, x: Addr, y: Addr, z: Addr)
    requires Rooted(f) && x in f.nodes && y in f.nodes && Unrelated(f, x, y) && z in f.nodes && x in f.anc[z]
    ensures z !in Up(f, y)
  {
    if z in f.anc[y] {
      Transitive(f, y, z);
    }
  }

  lemma ExchangedTransitive(f: Forest, x: Addr, y: Addr, a: Addr, b: Addr)
    requires Rooted(f) && x in f.nodes && y in f.nodes && Unrelated(f, x, y) && a in f.nodes
    requires b in Exchanged(f, x, y).anc[a]
    ensures b in f.nodes && Exchanged(f, x, y).anc[b] <= Exchanged(f, x, y).anc[a]
  {
    assert IsNode(f, a) && IsNode(f, x) && IsNode(f, y);
    if x in f.anc[a] {
      MovedTransitive(f, x, y, a, b);
    } else if y in f.anc[a] {
      MovedTransitive(f, y, x, a, b);
    } else {
      assert f.anc[b] <= f.anc[a];
    }
  }

  /** a moves from below x to below y. */
  lemma MovedTransitive(f: Forest, x: Addr, y: Addr, a: Addr, b: Addr)
    requires Rooted(f) && x in f.nodes && y in f.nodes && Unrelated(f, x, y) && a in f.nodes
    requires x in f.anc[a] && b in f.anc[a] - Up(f, x) + Up(f, y)
    ensures b in f.nodes
    ensures AncExchanged(f, x, y, f.anc[b]) == AncExchanged(f, y, x, f.anc[b])
    ensures AncExchanged(f, x, y, f.anc[b]) <= f.anc[a] - Up(f, x) + Up(f, y)
  {
    assert IsNode(f, a) && IsNode(f, x) && IsNode(f, y);
    NotBelowBoth(f, x, y, a);
    if b in Up(f, y) {
      assert IsNode(f, b) && f.anc[b] <= f.anc[y];
      assert y !in f.anc[b] && x !in f.anc[b];
    } else {
      assert f.anc[b] <= f.anc[a];
      NotBelowBoth(f, x, y, b);
      BelowOrAbove(f, a, b, x);
    }
  }

  lemma ChildrenExchanged(f: Forest, x: Addr, y: Addr)
    requires Rooted(f) && x in f.nodes && y in f.nodes && Unrelated(f, x, y)
    ensures Rooted(Exchanged(f, x, y))
  {
    var r := Exchanged(f, x, y);
    forall c | c in r.parent
      ensures c in r.nodes && IsChild(r, c)
    {
      ExchangedChild(f, x, y, c);
    }
    forall z | z in r.nodes
      ensures IsNode(r, z)
    {
      ExchangedNode(f, x, y, z);
    }
    forall a, b | a in r.nodes && b in r.anc[a]
      ensures r.anc[b] <= r.anc[a]
    {
      ExchangedTransitive(f, x, y, a, b);
    }
  }
}
