/**
 The inheritance graph of credential types and `getParentTypes`
 (packages/cli/src/credential-types.ts).

 `getParentTypes` copies the `extends` list of a type and then iterates over that
 copy while appending to it: every visited entry pushes the complete result of a
 recursive call.  `Drain` is the order in which such an array is visited and
 `Parents` the array the method returns.
 */
module CredentialTypes {
  type Name = string

  /** `knownCredentials`, reduced to the `extends` list of each known type. */
  type Hierarchy = map<Name, seq<Name>>

  function Extends(known: Hierarchy, typeName: Name): seq<Name> {
    if typeName in known then known[typeName] else []
  }

  /** `z` is an ancestor of `x` along a path of `n + 1` `extends` edges. */
  ghost predicate ReachesIn(known: Hierarchy, x: Name, z: Name, n: nat)
    decreases n
  {
    if n == 0 then z in Extends(known, x)
    else exists y :: y in Extends(known, x) && ReachesIn(known, y, z, n - 1)
  }

  ghost predicate IsAncestor(known: Hierarchy, x: Name, z: Name) {
    exists n: nat :: ReachesIn(known, x, z, n)
  }

  /** No type extends itself, directly or through other types. */
  ghost predicate Acyclic(known: Hierarchy) {
    forall x :: !IsAncestor(known, x, x)
  }

  lemma {:induction false} ReachesTransitive(known: Hierarchy, x: Name, y: Name, z: Name, m: nat, n: nat)
    requires ReachesIn(known, x, y, m) && ReachesIn(known, y, z, n)
    ensures ReachesIn(known, x, z, m + n + 1)
    decreases m
  {
    if m == 0 {
      assert y in Extends(known, x) && ReachesIn(known, y, z, m + n + 1 - 1);
    } else {
      var w :| w in Extends(known, x) && ReachesIn(known, w, y, m - 1);
      ReachesTransitive(known, w, y, z, m - 1, n);
    }
  }

  lemma AncestorTransitive(known: Hierarchy, x: Name, y: Name, z: Name)
    requires IsAncestor(known, x, y) && IsAncestor(known, y, z)
    ensures IsAncestor(known, x, z)
  {
    var m: nat :| ReachesIn(known, x, y, m);
    var n: nat :| ReachesIn(known, y, z, n);
    ReachesTransitive(known, x, y, z, m, n);
  }

  lemma EdgeIsAncestor(known: Hierarchy, x: Name, y: Name)
    requires y in Extends(known, x)
    ensures IsAncestor(known, x, y)
  {
    assert ReachesIn(known, x, y, 0);
  }

  /** Every ancestor is a direct parent or an ancestor of one. */
  lemma AncestorThroughParent(known: Hierarchy, x: Name, z: Name) returns (y: Name)
    requires IsAncestor(known, x, z)
    ensures y in Extends(known, x) && (y == z || IsAncestor(known, y, z))
  {
    var n: nat :| ReachesIn(known, x, z, n);
    if n == 0 {
      y := z;
    } else {
      y :| y in Extends(known, x) && ReachesIn(known, y, z, n - 1);
    }
  }

  // ---------- a measure on acyclic graphs ----------

  ghost function Mentioned(known: Hierarchy): set<Name> {
    set k, p | k in known && p in known[k] :: p
  }

  lemma {:induction false} ReachedIsMentioned(known: Hierarchy, x: Name, z: Name, n: nat)
    requires ReachesIn(known, x, z, n)
    ensures z in Mentioned(known)
    decreases n
  {
    if n != 0 {
      var y :| y in Extends(known, x) && ReachesIn(known, y, z, n - 1);
      ReachedIsMentioned(known, y, z, n - 1);
    }
  }

  ghost function Ancestors(known: Hierarchy, x: Name): set<Name> {
    set z | z in Mentioned(known) && IsAncestor(known, x, z)
  }

  /** The height of a type: how many strict ancestors it has. */
  ghost function Rank(known: Hierarchy, x: Name): nat {
    |Ancestors(known, x)|
  }

  lemma ProperSubsetIsSmaller<T>(a: set<T>, b: set<T>)
    requires a < b
    ensures |a| < |b|
  {
    assert b == a + (b - a) && a !! (b - a);
    assert b - a != {};
  }

  lemma AncestorHasLowerRank(known: Hierarchy, x: Name, y: Name)
    requires Acyclic(known) && IsAncestor(known, x, y)
    ensures Rank(known, y) < Rank(known, x)
  {
    forall z | z in Ancestors(known, y)
      ensures z in Ancestors(known, x)
    {
      AncestorTransitive(known, x, y, z);
    }
    var n: nat :| ReachesIn(known, x, y, n);
    ReachedIsMentioned(known, x, y, n);
    assert y in Ancestors(known, x) && y !in Ancestors(known, y);
    ProperSubsetIsSmaller(Ancestors(known, y), Ancestors(known, x));
  }

  ghost predicate DegreeAtMost(known: Hierarchy, d: nat) {
    d >= 1 && forall x :: |Extends(known, x)| <= d
  }

  lemma {:induction false} DegreeExists(known: Hierarchy)
    ensures exists d: nat :: DegreeAtMost(known, d)
    decreases |known|
  {
    if known == map[] {
      assert DegreeAtMost(known, 1);
    } else {
      var k :| k in known;
      DegreeExists(known - {k});
      var d: nat :| DegreeAtMost(known - {k}, d);
      assert forall x :: x != k ==> Extends(known, x) == Extends(known - {k}, x);
      assert DegreeAtMost(known, if |known[k]| > d then |known[k]| else d);
    }
  }

  /** An upper bound on the length of every `extends` list. */
  ghost function Degree(known: Hierarchy): (d: nat)
    ensures DegreeAtMost(known, d)
  {
    DegreeExists(known);
    var d: nat :| DegreeAtMost(known, d);
    d
  }

  /** Multiplication as repeated addition, which keeps the measure linear for the solver. */
  ghost function Times(n: nat, w: nat): nat {
    if n == 0 then 0 else w + Times(n - 1, w)
  }

  lemma {:induction false} TimesMonotone(m: nat, n: nat, w: nat)
    requires m <= n
    ensures Times(m, w) <= Times(n, w)
    decreases n
  {
    if m < n {
      TimesMonotone(m, n - 1, w);
    }
  }

  /**
   How much work one array entry of height `h` stands for.  The result of the
   recursive call is itself re-visited entry by entry, so the weight is squared at
   each level.
   */
  ghost function Weight(d: nat, h: nat): (w: nat)
    ensures w >= 1
  {
    if h == 0 then 1 else 1 + Times(Times(d, Weight(d, h - 1)), Weight(d, h - 1))
  }

  lemma WeightGrows(d: nat, h: nat)
    requires d >= 1
    ensures Weight(d, h) <= Weight(d, h + 1)
  {
    var w := Weight(d, h);
    TimesMonotone(1, d, w);
    TimesMonotone(1, Times(d, w), w);
  }

  lemma {:induction false} WeightMonotone(d: nat, h: nat, k: nat)
    requires d >= 1 && h <= k
    ensures Weight(d, h) <= Weight(d, k)
    decreases k
  {
    if h < k {
      WeightMonotone(d, h, k - 1);
      WeightGrows(d, k - 1);
    }
  }

  /** The work that the unvisited part of the array stands for. */
  ghost function Load(known: Hierarchy, work: seq<Name>): nat {
    if work == [] then 0
    else Weight(Degree(known), Rank(known, work[0])) + Load(known, work[1..])
  }

  lemma {:induction false} LoadAppend(known: Hierarchy, a: seq<Name>, b: seq<Name>)
    ensures Load(known, a + b) == Load(known, a) + Load(known, b)
  {
    if a == [] {
      assert a + b == b;
    } else {
      assert (a + b)[1..] == a[1..] + b;
      LoadAppend(known, a[1..], b);
    }
  }

  ghost predicate Below(known: Hierarchy, work: seq<Name>, h: nat) {
    forall y :: y in work ==> Rank(known, y) < h
  }

  /** The work of entries of height less than `h`. */
  lemma {:induction false} LoadBound(known: Hierarchy, work: seq<Name>, h: nat)
    requires h > 0 && Below(known, work, h)
    ensures Load(known, work) <= Times(|work|, Weight(Degree(known), h - 1))
  {
    if work != [] {
      assert work[0] in work;
      assert Below(known, work[1..], h);
      LoadBound(known, work[1..], h);
      WeightMonotone(Degree(known), Rank(known, work[0]), h - 1);
    }
  }

  // ---------- getParentTypes ----------

  /** Everything visited when the unvisited part of the array is `work`. */
  function Drain(known: Hierarchy, work: seq<Name>, ghost h: nat): (visited: seq<Name>)
    requires Acyclic(known) && Below(known, work, h)
    ensures |visited| <= Load(known, work)
    ensures Below(known, visited, h)
    decreases h, Load(known, work)
  {
    if work == [] then []
    else
      assert work[0] in work;
      var pushed := Parents(known, work[0]);
      LoadAppend(known, work[1..], pushed);
      [work[0]] + Drain(known, work[1..] + pushed, h)
  }

  /** The array that `getParentTypes` returns. */
  function Parents(known: Hierarchy, typeName: Name): (parents: seq<Name>)
    requires Acyclic(known)
    ensures Load(known, parents) < Weight(Degree(known), Rank(known, typeName))
    ensures Below(known, parents, Rank(known, typeName))
    decreases Rank(known, typeName)
  {
    var ext := Extends(known, typeName);
    ParentsAreBelow(known, typeName);
    var parents := Drain(known, ext, Rank(known, typeName));
    DrainIsLight(known, ext, parents, Rank(known, typeName));
    parents
  }

  lemma ParentsAreBelow(known: Hierarchy, typeName: Name)
    requires Acyclic(known)
    ensures Below(known, Extends(known, typeName), Rank(known, typeName))
  {
    forall y | y in Extends(known, typeName)
      ensures Rank(known, y) < Rank(known, typeName)
    {
      EdgeIsAncestor(known, typeName, y);
      AncestorHasLowerRank(known, typeName, y);
    }
  }

  lemma DrainIsLight(known: Hierarchy, ext: seq<Name>, visited: seq<Name>, h: nat)
    requires Below(known, ext, h) && Below(known, visited, h)
    requires |ext| <= Degree(known) && |visited| <= Load(known, ext)
    ensures Load(known, visited) < Weight(Degree(known), h)
  {
    if h == 0 {
      if visited != [] { assert visited[0] in visited; }
    } else {
      var d := Degree(known);
      var w := Weight(d, h - 1);
      LoadBound(known, ext, h);
      LoadBound(known, visited, h);
      TimesMonotone(|ext|, d, w);
      TimesMonotone(|visited|, Times(d, w), w);
    }
  }

  lemma DrainStep(known: Hierarchy, work: seq<Name>, h: nat)
    requires Acyclic(known) && Below(known, work, h) && work != []
    requires Rank(known, work[0]) < h
    ensures
      var rest := work[1..] + Parents(known, work[0]);
      Below(known, rest, h) && Load(known, rest) < Load(known, work) &&
      Drain(known, work, h) == [work[0]] + Drain(known, rest, h)
  {
    LoadAppend(known, work[1..], Parents(known, work[0]));
  }

  /** One round of the loop: the rest of the array gets lighter although it grows, and the outcome stays the same. */
  lemma GrowStep(known: Hierarchy, all: seq<Name>, i: nat, h: nat)
    requires Acyclic(known) && i < |all| && Below(known, all[i..], h)
    ensures Rank(known, all[i]) < h
    ensures
      var (work, more) := (all[i..], Parents(known, all[i]));
      var rest := work[1..] + more;
      (all + more)[i + 1..] == rest && Below(known, rest, h) && Load(known, rest) < Load(known, work) &&
      (all + more)[..i + 1] + Drain(known, rest, h) == all[..i] + Drain(known, work, h)
  {
    var work := all[i..];
    assert work[0] in work;
    var more := Parents(known, all[i]);
    DrainStep(known, work, h);
    SliceStep(all, more, i);
    Regroup(all[..i], work[0], Drain(known, work[1..] + more, h));
  }

  /** The source's loop: the array grows while it is being iterated. */
  method GetParentTypes(known: Hierarchy, typeName: Name) returns (parents: seq<Name>)
    requires Acyclic(known)
    ensures parents == Parents(known, typeName)
    ensures forall z :: z in parents <==> IsAncestor(known, typeName, z)
    decreases Rank(known, typeName)
  {
    ParentsAreTheAncestors(known, typeName);
    ParentsAreBelow(known, typeName);
    var extendsArr := Extends(known, typeName);
    if |extendsArr| == 0 {
      return [];
    }
    var extendsArrCopy := extendsArr;
    ghost var h, result := Rank(known, typeName), Parents(known, typeName);
    var i := 0;
    while i < |extendsArrCopy|
      invariant 0 <= i <= |extendsArrCopy| && Below(known, extendsArrCopy[i..], h)
      invariant extendsArrCopy[..i] + Drain(known, extendsArrCopy[i..], h) == result
      decreases Load(known, extendsArrCopy[i..])
    {
      GrowStep(known, extendsArrCopy, i, h);
      var more := GetParentTypes(known, extendsArrCopy[i]);
      extendsArrCopy := extendsArrCopy + more;
      i := i + 1;
    }
    return extendsArrCopy;
  }

  lemma Regroup<T>(a: seq<T>, x: T, b: seq<T>)
    ensures (a + [x]) + b == a + ([x] + b)
  {
  }

  lemma SliceStep<T>(a: seq<T>, more: seq<T>, i: nat)
    requires i < |a|
    ensures (a + more)[i + 1..] == a[i..][1..] + more
    ensures (a + more)[..i + 1] == a[..i] + [a[i..][0]]
  {
  }

  lemma {:induction false} DrainMembers(known: Hierarchy, work: seq<Name>, h: nat, z: Name)
    requires Acyclic(known) && Below(known, work, h)
    ensures z in Drain(known, work, h) <==> z in work || exists y :: y in work && IsAncestor(known, y, z)
    decreases h, Load(known, work), 0
  {
    if work != [] {
      assert work[0] in work;
      var pushed := Parents(known, work[0]);
      var rest := work[1..] + pushed;
      LoadAppend(known, work[1..], pushed);
      forall y ensures y in pushed <==> IsAncestor(known, work[0], y) {
        ParentMember(known, work[0], y);
      }
      DrainMembers(known, rest, h, z);
      if y :| y in rest && IsAncestor(known, y, z) && y !in work {
        AncestorTransitive(known, work[0], y, z);
      }
      if y :| y in work && IsAncestor(known, y, z) {
        assert y == work[0] || y in work[1..];
        assert y == work[0] ==> z in pushed;
      }
    }
  }

  lemma ParentMember(known: Hierarchy, x: Name, z: Name)
    requires Acyclic(known)
    ensures z in Parents(known, x) <==> IsAncestor(known, x, z)
    decreases Rank(known, x)
  {
    var ext := Extends(known, x);
    ParentsAreBelow(known, x);
    DrainMembers(known, ext, Rank(known, x), z);
    if IsAncestor(known, x, z) {
      var y := AncestorThroughParent(known, x, z);
    }
    if z in ext {
      EdgeIsAncestor(known, x, z);
    } else if y :| y in ext && IsAncestor(known, y, z) {
      EdgeIsAncestor(known, x, y);
      AncestorTransitive(known, x, y, z);
    }
  }

  /** The result holds the strict ancestors and nothing else. */
  lemma ParentsAreTheAncestors(known: Hierarchy, x: Name)
    requires Acyclic(known)
    ensures forall z :: z in Parents(known, x) <==> IsAncestor(known, x, z)
  {
    forall z ensures z in Parents(known, x) <==> IsAncestor(known, x, z) {
      ParentMember(known, x, z);
    }
  }

  // ---------- single inheritance: nearest first ----------

  ghost predicate SingleInheritance(known: Hierarchy) {
    forall x :: |Extends(known, x)| <= 1
  }

  /** The ancestors of `x` from the nearest one upwards. */
  ghost function Chain(known: Hierarchy, x: Name): seq<Name>
    requires Acyclic(known)
    decreases Rank(known, x)
  {
    var ext := Extends(known, x);
    if ext == [] then []
    else
      EdgeIsAncestor(known, x, ext[0]);
      AncestorHasLowerRank(known, x, ext[0]);
      [ext[0]] + Chain(known, ext[0])
  }

  /** First occurrences only. */
  function Dedupe<T(==)>(s: seq<T>): seq<T> {
    if s == [] then []
    else
      var d := Dedupe(s[..|s| - 1]);
      if s[|s| - 1] in d then d else d + [s[|s| - 1]]
  }

  lemma {:induction false} DedupeMembers<T>(s: seq<T>)
    ensures forall z :: z in Dedupe(s) <==> z in s
  {
    if s != [] {
      DedupeMembers(s[..|s| - 1]);
      assert s == s[..|s| - 1] + [s[|s| - 1]];
    }
  }

  lemma {:induction false} DedupeRepeats<T>(a: seq<T>, b: seq<T>)
    requires forall z :: z in b ==> z in a
    ensures Dedupe(a + b) == Dedupe(a)
    decreases |b|
  {
    if b == [] {
      assert a + b == a;
    } else {
      var front, last := b[..|b| - 1], b[|b| - 1];
      assert b == front + [last];
      assert (a + b)[..|a + b| - 1] == a + front;
      DedupeRepeats(a, front);
      DedupeMembers(a);
      assert last in b;
    }
  }

  lemma {:induction false} DedupeFresh<T>(p: T, a: seq<T>)
    requires p !in a
    ensures Dedupe([p] + a) == [p] + Dedupe(a)
    decreases |a|
  {
    if a == [] {
      assert [p] + a == [p];
      assert [p][..0] == [];
      assert Dedupe([p]) == [p];
    } else {
      var front, last := a[..|a| - 1], a[|a| - 1];
      assert a == front + [last];
      assert ([p] + a)[..|[p] + a| - 1] == [p] + front;
      assert last in a;
      DedupeFresh(p, front);
    }
  }

  /** The array is a queue: what is already in it stays in front. */
  lemma {:induction false} DrainKeepsPrefix(known: Hierarchy, work: seq<Name>, h: nat)
    requires Acyclic(known) && Below(known, work, h)
    ensures work <= Drain(known, work, h)
    decreases h, Load(known, work)
  {
    if work != [] {
      assert work[0] in work;
      var pushed := Parents(known, work[0]);
      LoadAppend(known, work[1..], pushed);
      DrainKeepsPrefix(known, work[1..] + pushed, h);
    }
  }

  lemma ParentsOfSingle(known: Hierarchy, x: Name, p: Name)
    requires Acyclic(known) && Extends(known, x) == [p]
    ensures Rank(known, p) < Rank(known, x)
    ensures
      var grand := Parents(known, p);
      Below(known, grand, Rank(known, x)) &&
      Parents(known, x) == [p] + Drain(known, grand, Rank(known, x))
  {
    ParentsAreBelow(known, x);
    assert p in Extends(known, x);
    DrainStep(known, [p], Rank(known, x));
    assert [p][1..] + Parents(known, p) == Parents(known, p);
  }

  /**
   On a chain of single parents the ancestors come nearest first, however often the
   growing array repeats them.
   */
  lemma {:induction false} NearestFirst(known: Hierarchy, x: Name)
    requires Acyclic(known) && SingleInheritance(known)
    ensures Dedupe(Parents(known, x)) == Chain(known, x)
    decreases Rank(known, x)
  {
    var ext := Extends(known, x);
    if ext == [] {
      assert Parents(known, x) == [];
    } else {
      var p, h := ext[0], Rank(known, x);
      assert ext == [p];
      ParentsOfSingle(known, x, p);
      var grand := Parents(known, p);
      NearestFirst(known, p);
      DrainRepeatsParents(known, p, h);
      ParentMember(known, p, p);
      DrainKeepsPrefix(known, grand, h);
      var tail := Drain(known, grand, h);
      assert p !in tail;
      DedupeFresh(p, tail);
      RepeatsAddNothing(grand, tail);
    }
  }

  lemma RepeatsAddNothing<T>(a: seq<T>, b: seq<T>)
    requires a <= b && forall z :: z in b ==> z in a
    ensures Dedupe(b) == Dedupe(a)
  {
    assert b == a + b[|a|..];
    DedupeRepeats(a, b[|a|..]);
  }

  /** Re-visiting the ancestors of `p` meets no new name. */
  lemma DrainRepeatsParents(known: Hierarchy, p: Name, h: nat)
    requires Acyclic(known) && Below(known, Parents(known, p), h)
    ensures forall z :: z in Drain(known, Parents(known, p), h) ==> z in Parents(known, p)
  {
    var grand := Parents(known, p);
    ParentsAreTheAncestors(known, p);
    forall z | z in Drain(known, grand, h)
      ensures z in grand
    {
      DrainMembers(known, grand, h, z);
      if y :| y in grand && IsAncestor(known, y, z) {
        AncestorTransitive(known, p, y, z);
      }
    }
  }
}
