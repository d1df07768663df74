/**
 * Role inheritance and the two CI gates over it (verify_roles.py): both worklists compute reachability
 * on any inheritance graph, cycles included, and the gates accept the same bindings.
 */
module RoleGates {
  /** Role to the roles it inherits from; a parent need not be a role of the catalog. */
  type Catalog = map<string, seq<string>>

  /** Permission key to the roles that hold it. */
  type Bindings = map<string, seq<string>>

  function Inherits(cat: Catalog, role: string): seq<string> {
    if role in cat then cat[role] else []
  }

  // ----- reachability ----------------------------------------------------------------------------

  /** One inheritance step or more. */
  predicate IsPath(cat: Catalog, p: seq<string>) {
    |p| >= 2 && forall k :: 0 <= k < |p| - 1 ==> p[k + 1] in Inherits(cat, p[k])
  }

  ghost predicate Reaches(cat: Catalog, role: string, ancestor: string) {
    exists p :: IsPath(cat, p) && p[0] == role && p[|p| - 1] == ancestor
  }

  function Parents(cat: Catalog): set<string> {
    set r <- cat, x <- cat[r] :: x
  }

  ghost function AncestorsOf(cat: Catalog, role: string): set<string> {
    set a <- Parents(cat) | Reaches(cat, role, a)
  }

  ghost function DescendantsOf(cat: Catalog, role: string): set<string> {
    set d <- cat | Reaches(cat, d, role)
  }

  lemma ReachesWithin(cat: Catalog, d: string, a: string)
    requires Reaches(cat, d, a)
    ensures d in cat && a in Parents(cat)
  {
    var p :| IsPath(cat, p) && p[0] == d && p[|p| - 1] == a;
    assert p[1] in Inherits(cat, p[0]);
    var k := |p| - 2;
    assert p[k + 1] in Inherits(cat, p[k]);
  }

  /** Ancestors and descendants are two readings of one relation. */
  lemma Duality(cat: Catalog, d: string, a: string)
    ensures d in DescendantsOf(cat, a) <==> a in AncestorsOf(cat, d)
  {
    if Reaches(cat, d, a) {
      ReachesWithin(cat, d, a);
    }
  }

  lemma EdgeReaches(cat: Catalog, r: string, x: string)
    requires x in Inherits(cat, r)
    ensures Reaches(cat, r, x)
  {
    assert IsPath(cat, [r, x]);
  }

  lemma ReachesThenEdge(cat: Catalog, r: string, y: string, x: string)
    requires Reaches(cat, r, y) && x in Inherits(cat, y)
    ensures Reaches(cat, r, x)
  {
    var p :| IsPath(cat, p) && p[0] == r && p[|p| - 1] == y;
    assert IsPath(cat, p + [x]);
  }

  lemma EdgeThenReaches(cat: Catalog, r: string, y: string, x: string)
    requires y in Inherits(cat, r) && Reaches(cat, y, x)
    ensures Reaches(cat, r, x)
  {
    var p :| IsPath(cat, p) && p[0] == y && p[|p| - 1] == x;
    var q := [r] + p;
    assert forall k :: 0 < k < |q| ==> q[k] == p[k - 1];
    assert IsPath(cat, q);
  }

  /** A set holding a role's parents and closed under inheritance holds all its ancestors. */
  lemma {:induction false} ClosedUpward(cat: Catalog, s: set<string>, p: seq<string>, k: nat)
    requires IsPath(cat, p) && 0 < k < |p|
    requires forall x <- Inherits(cat, p[0]) :: x in s
    requires forall y <- s, x <- Inherits(cat, y) :: x in s
    ensures p[k] in s
  {
    assert p[k - 1 + 1] in Inherits(cat, p[k - 1]);
    if k > 1 {
      ClosedUpward(cat, s, p, k - 1);
    }
  }

  /** A set holding a role's children and closed under them holds all its descendants. */
  lemma {:induction false} ClosedDownward(cat: Catalog, s: set<string>, p: seq<string>, k: nat)
    requires IsPath(cat, p) && 0 <= k < |p| - 1
    requires forall c <- cat :: p[|p| - 1] in cat[c] ==> c in s
    requires forall y <- s, c <- cat :: y in cat[c] ==> c in s
    ensures p[k] in s
    decreases |p| - k
  {
    assert p[k + 1] in Inherits(cat, p[k]);
    if k < |p| - 2 {
      ClosedDownward(cat, s, p, k + 1);
    }
  }

  // ----- the worklists ---------------------------------------------------------------------------

  /** Everything on the list was reached: the roles done and the roles waiting. */
  ghost predicate Above(cat: Catalog, role: string, s: set<string>, stack: seq<string>) {
    && s <= AncestorsOf(cat, role)
    && forall x <- stack :: x in AncestorsOf(cat, role)
  }

  /** Nothing reached in one step from the roles done, or from the start, was forgotten. */
  ghost predicate UpKept(cat: Catalog, from: string, s: set<string>, stack: seq<string>) {
    && (forall x <- Inherits(cat, from) :: x in s || x in stack)
    && (forall y <- s, x <- Inherits(cat, y) :: x in s || x in stack)
  }

  lemma ParentsAreAncestors(cat: Catalog, role: string, y: string)
    requires y == role || y in AncestorsOf(cat, role)
    ensures forall x <- Inherits(cat, y) :: x in AncestorsOf(cat, role)
  {
    forall x | x in Inherits(cat, y) ensures x in AncestorsOf(cat, role) {
      EdgeReaches(cat, y, x);
      if y != role {
        ReachesThenEdge(cat, role, y, x);
      }
      ReachesWithin(cat, role, x);
    }
  }

  lemma AncestorsComplete(cat: Catalog, role: string, s: set<string>)
    requires Above(cat, role, s, []) && UpKept(cat, role, s, [])
    ensures s == AncestorsOf(cat, role)
  {
    forall a | Reaches(cat, role, a) ensures a in s {
      var p :| IsPath(cat, p) && p[0] == role && p[|p| - 1] == a;
      ClosedUpward(cat, s, p, |p| - 1);
    }
  }

  method Ancestors(role: string, cat: Catalog) returns (out: set<string>)
    requires role in cat
    ensures out == AncestorsOf(cat, role)
  {
    hide AncestorsOf;
    out := {};
    var stack := cat[role];
    ParentsAreAncestors(cat, role, role);
    while stack != []
      invariant Above(cat, role, out, stack) && UpKept(cat, role, out, stack)
      decreases AncestorsOf(cat, role) - out, |stack|
    {
      ghost var before := stack;
      var parent := stack[|stack| - 1];
      stack := stack[..|stack| - 1];
      assert before == stack + [parent];
      if parent !in out {
        ParentsAreAncestors(cat, role, parent);
        out := out + {parent};
        stack := stack + Inherits(cat, parent);
      }
    }
    AncestorsComplete(cat, role, out);
  }

  function ChildrenOf(children: map<string, set<string>>, x: string): set<string> {
    if x in children then children[x] else {}
  }

  /** One role files itself under each of its parents, known to the catalog or not. */
  method FileUnder(children: map<string, set<string>>, r: string, parents: seq<string>)
    returns (filed: map<string, set<string>>)
    ensures forall x :: ChildrenOf(filed, x) == ChildrenOf(children, x) + if x in parents then {r} else {}
  {
    filed := children;
    for i := 0 to |parents|
      invariant forall x :: ChildrenOf(filed, x) == ChildrenOf(children, x) + if x in parents[..i] then {r} else {}
    {
      assert parents[..i + 1] == parents[..i] + [parents[i]];
      filed := filed[parents[i] := ChildrenOf(filed, parents[i]) + {r}];
    }
    assert parents[..|parents|] == parents;
  }

  method Children(cat: Catalog) returns (children: map<string, set<string>>)
    ensures forall x :: ChildrenOf(children, x) == set r <- cat | x in cat[r]
  {
    children := map r <- cat :: {};
    var rest := cat.Keys;
    while rest != {}
      invariant rest <= cat.Keys
      invariant forall x :: ChildrenOf(children, x) == set r <- cat | r !in rest && x in cat[r]
      decreases rest
    {
      hide ChildrenOf;
      var r :| r in rest;
      children := FileUnder(children, r, cat[r]);
      rest := rest - {r};
    }
  }

  /** The elements of a set, in some order. */
  method Listed(s: set<string>) returns (list: seq<string>)
    ensures forall x :: x in list <==> x in s
  {
    list := [];
    var rest := s;
    while rest != {}
      invariant forall x :: x in s <==> x in rest || x in list
      invariant rest <= s
      decreases rest
    {
      var x :| x in rest;
      list := list + [x];
      rest := rest - {x};
    }
  }

  ghost predicate Below(cat: Catalog, role: string, s: set<string>, stack: seq<string>) {
    && s <= DescendantsOf(cat, role)
    && forall c <- stack :: c in DescendantsOf(cat, role)
  }

  ghost predicate DownKept(cat: Catalog, from: string, s: set<string>, stack: seq<string>) {
    && (forall c <- cat :: from in cat[c] ==> c in s || c in stack)
    && (forall y <- s, c <- cat :: y in cat[c] ==> c in s || c in stack)
  }

  lemma ChildrenAreDescendants(cat: Catalog, role: string, y: string)
    requires y == role || y in DescendantsOf(cat, role)
    ensures forall c <- cat :: y in cat[c] ==> c in DescendantsOf(cat, role)
  {
    forall c | c in cat && y in cat[c] ensures c in DescendantsOf(cat, role) {
      EdgeReaches(cat, c, y);
      if y != role {
        EdgeThenReaches(cat, c, y, role);
      }
    }
  }

  lemma DescendantsComplete(cat: Catalog, role: string, s: set<string>)
    requires Below(cat, role, s, []) && DownKept(cat, role, s, [])
    ensures s == DescendantsOf(cat, role)
  {
    forall d | Reaches(cat, d, role) ensures d in s {
      var p :| IsPath(cat, p) && p[0] == d && p[|p| - 1] == role;
      ClosedDownward(cat, s, p, 0);
    }
  }

  method Descendants(role: string, cat: Catalog) returns (out: set<string>)
    ensures out == DescendantsOf(cat, role)
  {
    hide DescendantsOf;
    var children := Children(cat);
    out := {};
    var stack := Listed(ChildrenOf(children, role));
    ChildrenAreDescendants(cat, role, role);
    while stack != []
      invariant Below(cat, role, out, stack) && DownKept(cat, role, out, stack)
      decreases DescendantsOf(cat, role) - out, |stack|
    {
      hide ChildrenOf;
      ghost var before := stack;
      var child := stack[|stack| - 1];
      stack := stack[..|stack| - 1];
      assert before == stack + [child];
      if child !in out {
        ChildrenAreDescendants(cat, role, child);
        out := out + {child};
        var more := Listed(ChildrenOf(children, child));
        stack := stack + more;
      }
    }
    DescendantsComplete(cat, role, out);
  }

  // ----- the gates -------------------------------------------------------------------------------

  function ListedKeys(role: string, bindings: Bindings): set<string> {
    set k <- bindings | role in bindings[k]
  }

  /** The keys a role holds itself or through an ancestor. */
  ghost function EffectiveKeys(role: string, bindings: Bindings, cat: Catalog): set<string> {
    ListedKeys(role, bindings) + set k <- bindings | exists a <- AncestorsOf(cat, role) :: a in bindings[k]
  }

  method Effective(role: string, bindings: Bindings, cat: Catalog) returns (keys: set<string>)
    requires role in cat
    ensures keys == EffectiveKeys(role, bindings, cat)
  {
    var up := Ancestors(role, cat);
    var own := set k <- bindings | role in bindings[k];
    var inherited := set k <- bindings | up * (set r <- bindings[k]) != {};
    forall k | k in bindings ensures up * (set r <- bindings[k]) != {} <==> exists a <- up :: a in bindings[k] {
      if a :| a in up && a in bindings[k] {
        assert a in up * (set r <- bindings[k]);
      }
    }
    keys := own + inherited;
  }

  /** Gate 3: whoever inherits from a holder holds the key too. */
  ghost predicate HoldersClosed(bindings: Bindings, cat: Catalog) {
    forall k <- bindings, r <- bindings[k] :: DescendantsOf(cat, r) <= (set h <- bindings[k])
  }

  /** Gate 4: the keys listed for a role are the keys effective for it. */
  ghost predicate ListsReproduced(bindings: Bindings, cat: Catalog) {
    forall role <- cat :: ListedKeys(role, bindings) == EffectiveKeys(role, bindings, cat)
  }

  method CheckHoldersClosed(bindings: Bindings, cat: Catalog) returns (ok: bool)
    ensures ok <==> HoldersClosed(bindings, cat)
  {
    ok := true;
    var keys := bindings.Keys;
    while keys != {}
      invariant keys <= bindings.Keys
      invariant ok <==> forall k <- bindings, r <- bindings[k] ::
                          k !in keys ==> DescendantsOf(cat, r) <= (set h <- bindings[k])
      decreases keys
    {
      hide DescendantsOf;
      var key :| key in keys;
      var holders := set h <- bindings[key];
      var rest := holders;
      ghost var sofar := ok;
      while rest != {}
        invariant rest <= holders
        invariant ok <==> sofar && forall r <- holders :: r !in rest ==> DescendantsOf(cat, r) <= holders
        decreases rest
      {
        var role :| role in rest;
        var down := Descendants(role, cat);
        NothingMissing(down, holders);
        if down - holders != {} {
          ok := false;
        }
        rest := rest - {role};
      }
      keys := keys - {key};
    }
  }

  lemma NothingMissing(a: set<string>, b: set<string>)
    ensures a - b == {} <==> a <= b
  {
    if a - b == {} {
      assert forall x <- a :: x in a - b || x in b;
    }
  }

  method CheckListsReproduced(bindings: Bindings, cat: Catalog) returns (ok: bool)
    ensures ok <==> ListsReproduced(bindings, cat)
  {
    ok := true;
    var roles := cat.Keys;
    while roles != {}
      invariant roles <= cat.Keys
      invariant ok <==> forall r <- cat :: r !in roles ==> ListedKeys(r, bindings) == EffectiveKeys(r, bindings, cat)
      decreases roles
    {
      hide EffectiveKeys;
      var role :| role in roles;
      var listed := set k <- bindings | role in bindings[k];
      var effective := Effective(role, bindings, cat);
      if listed != effective {
        ok := false;
      }
      roles := roles - {role};
    }
  }

  /** The two gates accept exactly the same catalogs and bindings. */
  lemma GatesAgree(bindings: Bindings, cat: Catalog)
    ensures HoldersClosed(bindings, cat) <==> ListsReproduced(bindings, cat)
  {
    hide Reaches, AncestorsOf, DescendantsOf;
    if HoldersClosed(bindings, cat) {
      forall role, k, a | role in cat && k in bindings && a in AncestorsOf(cat, role) && a in bindings[k]
        ensures role in bindings[k]
      {
        Duality(cat, role, a);
      }
    }
    if ListsReproduced(bindings, cat) {
      forall k, r, d | k in bindings && r in bindings[k] && d in DescendantsOf(cat, r)
        ensures d in bindings[k]
      {
        Duality(cat, d, r);
        assert d in cat by { DescendantInCatalog(cat, d, r); }
        assert k in EffectiveKeys(d, bindings, cat);
        assert k in ListedKeys(d, bindings);
      }
    }
  }

  lemma DescendantInCatalog(cat: Catalog, d: string, r: string)
    requires d in DescendantsOf(cat, r)
    ensures d in cat
  {
  }
}
