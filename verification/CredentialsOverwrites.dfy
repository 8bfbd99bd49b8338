/**
 Credential overwrites and their flattening along `extends`
 (packages/cli/src/credentials-overwrites.ts).
 */
module CredentialsOverwrites {
  import opened Basics
  import opened CredentialTypes

  /** Where an object lives: `deepCopy` never returns an object it was given. */
  datatype Ref = Original(id: nat) | Copied(source: Ref)

  /** A field value.  `Undefined` is what reading a missing key gives. */
  datatype Value = Undefined | Null | Text(text: string) | Number(number: int) | Obj(ref: Ref, body: string)

  type Data = map<string, Value>

  type Overwrites = map<Name, Data>

  /**
   What the overwrites service reads from its collaborators.  A recognised type that
   is not a key of `known` has no `extends` list.
   */
  datatype Config = Config(known: Hierarchy, recognized: set<Name>, skipTypes: set<Name>) {
    ghost predicate Valid() {
      Acyclic(known) && known.Keys <= recognized
    }
  }

  function Lookup(data: Overwrites, typeName: Name): Option<Data> {
    if typeName in data then Some(data[typeName]) else None
  }

  // ---------- getOverwrites ----------

  /** The result of `getOverwrites`, with the types it has marked as resolved. */
  function Resolve(cfg: Config, data: Overwrites, resolved: seq<Name>, typeName: Name): (Option<Data>, seq<Name>)
    requires cfg.Valid()
    decreases Rank(cfg.known, typeName)
  {
    if typeName in resolved then (Lookup(data, typeName), resolved)
    else if typeName !in cfg.recognized then (None, resolved)
    else if typeName !in cfg.known then (Lookup(data, typeName), resolved + [typeName])
    else
      ParentsAreBelow(cfg.known, typeName);
      var (merged, resolved') :=
        MergeParents(cfg, data, resolved, cfg.known[typeName], map[], Rank(cfg.known, typeName));
      (Some(Assign(merged, Lookup(data, typeName))), resolved' + [typeName])
  }

  function MergeParents(cfg: Config, data: Overwrites, resolved: seq<Name>, parents: seq<Name>, acc: Data,
                        ghost h: nat): (Data, seq<Name>)
    requires cfg.Valid() && Below(cfg.known, parents, h)
    decreases h, |parents|
  {
    if parents == [] then (acc, resolved)
    else
      assert parents[0] in parents;
      var (parent, resolved') := Resolve(cfg, data, resolved, parents[0]);
      MergeParents(cfg, data, resolved', parents[1..], Assign(acc, parent), h)
  }

  /** `Object.assign`, which ignores an undefined source. */
  function Assign(target: Data, source: Option<Data>): Data {
    match source
    case None => target
    case Some(d) => target + d
  }

  // ---------- setPlainData ----------

  /** The loop of `setPlainData` over the keys still to be visited. */
  function FlattenFrom(cfg: Config, data: Overwrites, resolved: seq<Name>, order: seq<Name>): Overwrites
    requires cfg.Valid()
    decreases |order|
  {
    if order == [] then data
    else
      var (overwrites, resolved') := Resolve(cfg, data, resolved, order[0]);
      FlattenFrom(cfg, Store(data, order[0], overwrites), resolved', order[1..])
  }

  function Store(data: Overwrites, typeName: Name, overwrites: Option<Data>): Overwrites {
    if overwrites.Some? && overwrites.value != map[] then data[typeName := overwrites.value] else data
  }

  /** The stored overwrites after `setPlainData`, visiting the keys in `order`. */
  function Flatten(cfg: Config, data: Overwrites, order: seq<Name>): Overwrites
    requires cfg.Valid()
  {
    FlattenFrom(cfg, data, [], order)
  }

  // ---------- get ----------

  function Reverse<T>(s: seq<T>): seq<T> {
    if s == [] then [] else Reverse(s[1..]) + [s[0]]
  }

  /** The defined entries of the given types, in order. */
  function Entries(data: Overwrites, types: seq<Name>): seq<Data> {
    if types == [] then []
    else (if types[0] in data then [data[types[0]]] else []) + Entries(data, types[1..])
  }

  function AssignAll(acc: Data, entries: seq<Data>): Data
    decreases |entries|
  {
    if entries == [] then acc else AssignAll(acc + entries[0], entries[1..])
  }

  function Get(cfg: Config, data: Overwrites, name: Name): Option<Data>
    requires cfg.Valid()
  {
    var entries := Entries(data, Reverse([name] + Parents(cfg.known, name)));
    if |entries| == 0 then None else Some(AssignAll(map[], entries))
  }

  /** The value of `key` at the first of the given types that defines it. */
  function FirstDefining(data: Overwrites, types: seq<Name>, key: string): Option<Value> {
    if types == [] then None
    else if types[0] in data && key in data[types[0]] then Some(data[types[0]][key])
    else FirstDefining(data, types[1..], key)
  }

  /** The value of `key` at the nearest of `name` and its ancestors that defines it. */
  ghost function Nearest(cfg: Config, data: Overwrites, name: Name, key: string): Option<Value>
    requires cfg.Valid()
  {
    FirstDefining(data, [name] + Chain(cfg.known, name), key)
  }

  lemma {:induction false} EntriesAppend(data: Overwrites, a: seq<Name>, b: seq<Name>)
    ensures Entries(data, a + b) == Entries(data, a) + Entries(data, b)
  {
    if a == [] {
      assert a + b == b;
    } else {
      assert (a + b)[1..] == a[1..] + b;
      EntriesAppend(data, a[1..], b);
    }
  }

  lemma {:induction false} AssignAllAppend(acc: Data, a: seq<Data>, b: seq<Data>)
    ensures AssignAll(acc, a + b) == AssignAll(AssignAll(acc, a), b)
    decreases |a|
  {
    if a == [] {
      assert a + b == b;
    } else {
      assert (a + b)[1..] == a[1..] + b;
      AssignAllAppend(acc + a[0], a[1..], b);
    }
  }

  /** Assigning in reverse order lets the first type of the list win. */
  lemma {:induction false} ReversedAssignment(data: Overwrites, types: seq<Name>, key: string)
    ensures
      var m := AssignAll(map[], Entries(data, Reverse(types)));
      var first := FirstDefining(data, types, key);
      (key in m <==> first.Some?) && (key in m ==> m[key] == first.value)
  {
    if types != [] {
      ReversedAssignment(data, types[1..], key);
      var last := Entries(data, [types[0]]);
      EntriesAppend(data, Reverse(types[1..]), [types[0]]);
      AssignAllAppend(map[], Entries(data, Reverse(types[1..])), last);
      assert last == if types[0] in data then [data[types[0]]] else [];
      var before := AssignAll(map[], Entries(data, Reverse(types[1..])));
      if types[0] in data {
        assert last[1..] == [];
        assert AssignAll(before, last) == before + data[types[0]];
      }
    }
  }

  lemma {:induction false} NoEntries(data: Overwrites, types: seq<Name>)
    ensures Entries(data, Reverse(types)) == [] <==> forall t :: t in types ==> t !in data
  {
    if types != [] {
      NoEntries(data, types[1..]);
      EntriesAppend(data, Reverse(types[1..]), [types[0]]);
      assert Entries(data, [types[0]]) == if types[0] in data then [data[types[0]]] else [];
      assert types[0] in types;
      assert forall t :: t in types <==> t == types[0] || t in types[1..];
    }
  }

  lemma {:induction false} FirstDefiningAppend(data: Overwrites, a: seq<Name>, b: seq<Name>, key: string)
    ensures FirstDefining(data, a + b, key)
         == if FirstDefining(data, a, key).Some? then FirstDefining(data, a, key) else FirstDefining(data, b, key)
  {
    if a == [] {
      assert a + b == b;
    } else {
      assert (a + b)[1..] == a[1..] + b;
      FirstDefiningAppend(data, a[1..], b, key);
    }
  }

  lemma {:induction false} FirstDefiningMember(data: Overwrites, types: seq<Name>, t: Name, key: string)
    requires t in types && FirstDefining(data, types, key).None?
    ensures !(t in data && key in data[t])
  {
    if types[0] != t {
      FirstDefiningMember(data, types[1..], t, key);
    }
  }

  /** Repeated types cannot change which one defines a key first. */
  lemma {:induction false} FirstDefiningDedupe(data: Overwrites, types: seq<Name>, key: string)
    ensures FirstDefining(data, Dedupe(types), key) == FirstDefining(data, types, key)
    decreases |types|
  {
    if types != [] {
      var front, last := types[..|types| - 1], types[|types| - 1];
      assert types == front + [last];
      FirstDefiningDedupe(data, front, key);
      FirstDefiningAppend(data, front, [last], key);
      FirstDefiningAppend(data, Dedupe(front), [last], key);
      if last in Dedupe(front) && FirstDefining(data, Dedupe(front), key).None? {
        FirstDefiningMember(data, Dedupe(front), last, key);
      }
    }
  }

  /** `get` answers, field by field, from the nearest type that has the field. */
  lemma GetIsNearest(cfg: Config, data: Overwrites, name: Name, key: string)
    requires cfg.Valid() && SingleInheritance(cfg.known)
    ensures
      var m := Get(cfg, data, name);
      var nearest := Nearest(cfg, data, name, key);
      (m.Some? && key in m.value <==> nearest.Some?) &&
      (nearest.Some? ==> m.value[key] == nearest.value)
  {
    var parents := Parents(cfg.known, name);
    ReversedAssignment(data, [name] + parents, key);
    FirstDefiningDedupe(data, parents, key);
    NearestFirst(cfg.known, name);
    FirstDefiningAppend(data, [name], parents, key);
    FirstDefiningAppend(data, [name], Chain(cfg.known, name), key);
    assert Entries(data, Reverse([name] + parents)) == [] ==>
             AssignAll(map[], Entries(data, Reverse([name] + parents))) == map[];
  }

  // ---------- what a type can inherit ----------

  predicate Defines(data: Overwrites, t: Name, key: string) {
    t in data && key in data[t]
  }

  /** `v` is the value of `key` at `t`, or else at an ancestor with no definition on some way to it. */
  ghost predicate Offers(known: Hierarchy, data: Overwrites, t: Name, key: string, v: Value)
    requires Acyclic(known)
    decreases Rank(known, t)
  {
    ParentsAreBelow(known, t);
    if Defines(data, t, key) then v == data[t][key]
    else exists y :: y in Extends(known, t) && Offers(known, data, y, key, v)
  }

  /** No type can inherit two values for one field. */
  ghost predicate Consistent(known: Hierarchy, data: Overwrites)
    requires Acyclic(known)
  {
    forall t, key, v, w :: Offers(known, data, t, key, v) && Offers(known, data, t, key, w) ==> v == w
  }

  lemma OfferFromParent(known: Hierarchy, data: Overwrites, t: Name, key: string, v: Value) returns (y: Name)
    requires Acyclic(known) && Offers(known, data, t, key, v) && !Defines(data, t, key)
    ensures y in Extends(known, t) && Offers(known, data, y, key, v) && Rank(known, y) < Rank(known, t)
  {
    ParentsAreBelow(known, t);
    y :| y in Extends(known, t) && Offers(known, data, y, key, v);
  }

  lemma {:induction false} SingleOffer(known: Hierarchy, data: Overwrites, t: Name, key: string, v: Value, w: Value)
    requires Acyclic(known) && SingleInheritance(known)
    requires Offers(known, data, t, key, v) && Offers(known, data, t, key, w)
    ensures v == w
    decreases Rank(known, t)
  {
    if !Defines(data, t, key) {
      var y := OfferFromParent(known, data, t, key, v);
      var z := OfferFromParent(known, data, t, key, w);
      assert |Extends(known, t)| <= 1 && y == z;
      SingleOffer(known, data, y, key, v, w);
    }
  }

  /** With single inheritance there is never a second value. */
  lemma SingleInheritanceIsConsistent(known: Hierarchy, data: Overwrites)
    requires Acyclic(known) && SingleInheritance(known)
    ensures Consistent(known, data)
  {
    forall t, key, v, w | Offers(known, data, t, key, v) && Offers(known, data, t, key, w) ensures v == w {
      SingleOffer(known, data, t, key, v, w);
    }
  }

  lemma {:induction false} OfferIsDefined(known: Hierarchy, data: Overwrites, t: Name, key: string, v: Value)
    returns (z: Name)
    requires Acyclic(known) && Offers(known, data, t, key, v)
    ensures (z == t || IsAncestor(known, t, z)) && Defines(data, z, key)
    decreases Rank(known, t)
  {
    if Defines(data, t, key) {
      z := t;
    } else {
      ParentsAreBelow(known, t);
      var y :| y in Extends(known, t) && Offers(known, data, y, key, v);
      EdgeIsAncestor(known, t, y);
      z := OfferIsDefined(known, data, y, key, v);
      if z != y {
        AncestorTransitive(known, t, y, z);
      }
    }
  }

  lemma {:induction false} FirstIsDefined(data: Overwrites, types: seq<Name>, key: string) returns (z: Name)
    requires FirstDefining(data, types, key).Some?
    ensures z in types && Defines(data, z, key) && FirstDefining(data, types, key) == Some(data[z][key])
    decreases |types|
  {
    if Defines(data, types[0], key) {
      z := types[0];
    } else {
      z := FirstIsDefined(data, types[1..], key);
    }
  }

  /** The ancestors of `x` pushed behind `front`: whatever is found first there is offered. */
  lemma DrainOffersStep(known: Hierarchy, data: Overwrites, front: seq<Name>, x: Name, y: Name, key: string, v: Value)
    requires Acyclic(known) && FirstDefining(data, Parents(known, x), key).None?
    requires y in front + Parents(known, x) && Offers(known, data, y, key, v)
    ensures y in front
  {
    if y in Parents(known, x) {
      var z := OfferIsDefined(known, data, y, key, v);
      ParentMember(known, x, y);
      if z != y {
        AncestorTransitive(known, x, y, z);
      }
      ParentMember(known, x, z);
      FirstDefiningMember(data, Parents(known, x), z, key);
    }
  }

  lemma FoundInPrefix(data: Overwrites, a: seq<Name>, all: seq<Name>, key: string)
    requires a <= all && FirstDefining(data, a, key).Some?
    ensures FirstDefining(data, all, key) == FirstDefining(data, a, key)
  {
    assert all == a + all[|a|..];
    FirstDefiningAppend(data, a, all[|a|..], key);
  }

  /**
   The growing array meets every definition only after everything on some way to it, so
   the first one it meets is not hidden.
   */
  lemma {:induction false} DrainOffers(known: Hierarchy, data: Overwrites, work: seq<Name>, h: nat, key: string)
    returns (y: Name)
    requires Acyclic(known) && Below(known, work, h) && FirstDefining(data, Drain(known, work, h), key).Some?
    ensures y in work && Offers(known, data, y, key, FirstDefining(data, Drain(known, work, h), key).value)
    decreases h, Load(known, work)
  {
    var x := work[0];
    assert x in work;
    DrainStep(known, work, h);
    var front, pushed := work[1..], Parents(known, x);
    var visited := Drain(known, front + pushed, h);
    assert Drain(known, work, h)[1..] == visited;
    if Defines(data, x, key) {
      y := x;
    } else if FirstDefining(data, front, key).Some? {
      DrainKeepsPrefix(known, front + pushed, h);
      FoundInPrefix(data, front, visited, key);
      y := FirstIsDefined(data, front, key);
    } else if FirstDefining(data, pushed, key).Some? {
      DrainKeepsPrefix(known, front + pushed, h);
      FirstDefiningAppend(data, front, pushed, key);
      FoundInPrefix(data, front + pushed, visited, key);
      ParentsAreBelow(known, x);
      var p := DrainOffers(known, data, Extends(known, x), Rank(known, x), key);
      y := x;
    } else {
      y := DrainOffers(known, data, front + pushed, h, key);
      DrainOffersStep(known, data, front, x, y, key, FirstDefining(data, visited, key).value);
    }
  }

  /** What `get` finds for a field is something the type can inherit, and it finds something if there is anything. */
  lemma GetIsOffered(known: Hierarchy, data: Overwrites, name: Name, key: string)
    requires Acyclic(known)
    ensures
      var found := FirstDefining(data, [name] + Parents(known, name), key);
      (found.Some? ==> Offers(known, data, name, key, found.value)) &&
      ((exists v :: Offers(known, data, name, key, v)) ==> found.Some?)
  {
    var parents := Parents(known, name);
    assert ([name] + parents)[1..] == parents;
    if FirstDefining(data, parents, key).Some? {
      ParentsAreBelow(known, name);
      var y := DrainOffers(known, data, Extends(known, name), Rank(known, name), key);
    }
    if v :| Offers(known, data, name, key, v) {
      var z := OfferIsDefined(known, data, name, key, v);
      if z != name {
        ParentMember(known, name, z);
      }
      if FirstDefining(data, [name] + parents, key).None? {
        FirstDefiningMember(data, [name] + parents, z, key);
      }
    }
  }

  // ---------- flattening is invisible through get ----------

  /**
   What every visiting order of `setPlainData` preserves.  An entry keeps its own
   fields and may have gained inherited ones, possibly not all of them, but only with
   a value that the type can inherit.
   */
  ghost predicate PartlyFlattened(cfg: Config, raw: Overwrites, cur: Overwrites)
    requires cfg.Valid()
  {
    cur.Keys == raw.Keys &&
    forall t :: t in raw ==> raw[t].Keys <= cur[t].Keys && Inherited(cfg, raw, t, cur[t])
  }

  ghost predicate Inherited(cfg: Config, raw: Overwrites, t: Name, d: Data)
    requires cfg.Valid()
  {
    forall k :: k in d ==> Offers(cfg.known, raw, t, k, d[k])
  }

  ghost predicate FromParents(cfg: Config, raw: Overwrites, t: Name, d: Data)
    requires cfg.Valid()
  {
    forall k :: k in d ==> exists y :: y in Extends(cfg.known, t) && Offers(cfg.known, raw, y, k, d[k])
  }

  lemma {:induction false} MergeInherits(cfg: Config, raw: Overwrites, cur: Overwrites, resolved: seq<Name>, t: Name,
                                         parents: seq<Name>, acc: Data, h: nat)
    requires cfg.Valid() && PartlyFlattened(cfg, raw, cur) && Below(cfg.known, parents, h)
    requires FromParents(cfg, raw, t, acc) && forall p :: p in parents ==> p in Extends(cfg.known, t)
    ensures FromParents(cfg, raw, t, MergeParents(cfg, cur, resolved, parents, acc, h).0)
    decreases h, |parents|
  {
    if parents != [] {
      var p := parents[0];
      assert p in parents;
      var (parent, resolved') := Resolve(cfg, cur, resolved, p);
      ResolveInherits(cfg, raw, cur, resolved, p);
      MergeInherits(cfg, raw, cur, resolved', t, parents[1..], Assign(acc, parent), h);
    }
  }

  /** Whatever has been resolved and flattened before. */
  lemma {:induction false} ResolveInherits(cfg: Config, raw: Overwrites, cur: Overwrites, resolved: seq<Name>, t: Name)
    requires cfg.Valid() && PartlyFlattened(cfg, raw, cur)
    ensures
      var r := Resolve(cfg, cur, resolved, t).0;
      r.Some? ==> Inherited(cfg, raw, t, r.value) && (t in raw ==> raw[t].Keys <= r.value.Keys)
    decreases Rank(cfg.known, t)
  {
    if t !in resolved && t in cfg.recognized && t in cfg.known {
      var ext := cfg.known[t];
      var h := Rank(cfg.known, t);
      ParentsAreBelow(cfg.known, t);
      MergeInherits(cfg, raw, cur, resolved, t, ext, map[], h);
      var merged := MergeParents(cfg, cur, resolved, ext, map[], h).0;
      assert Resolve(cfg, cur, resolved, t).0 == Some(Assign(merged, Lookup(cur, t)));
      forall k | k in merged && !Defines(cur, t, k) ensures Offers(cfg.known, raw, t, k, merged[k]) {
        assert !Defines(raw, t, k);
      }
    }
  }

  lemma {:induction false} FlattenKeepsInheritance(cfg: Config, raw: Overwrites, cur: Overwrites, resolved: seq<Name>,
                                                   order: seq<Name>)
    requires cfg.Valid() && PartlyFlattened(cfg, raw, cur)
    requires forall t :: t in order ==> t in raw
    ensures PartlyFlattened(cfg, raw, FlattenFrom(cfg, cur, resolved, order))
    decreases |order|
  {
    if order != [] {
      var t := order[0];
      assert t in order;
      var (r, resolved') := Resolve(cfg, cur, resolved, t);
      ResolveInherits(cfg, raw, cur, resolved, t);
      FlattenKeepsInheritance(cfg, raw, Store(cur, t, r), resolved', order[1..]);
    }
  }

  /** Flattening offers nothing new. */
  lemma {:induction false} OffersIgnoreFlattening(cfg: Config, raw: Overwrites, cur: Overwrites, t: Name, key: string,
                                                  v: Value)
    requires cfg.Valid() && PartlyFlattened(cfg, raw, cur) && Offers(cfg.known, cur, t, key, v)
    ensures Offers(cfg.known, raw, t, key, v)
    decreases Rank(cfg.known, t)
  {
    if !Defines(cur, t, key) {
      ParentsAreBelow(cfg.known, t);
      var y :| y in Extends(cfg.known, t) && Offers(cfg.known, cur, y, key, v);
      OffersIgnoreFlattening(cfg, raw, cur, y, key, v);
      assert !Defines(raw, t, key);
    }
  }

  lemma FlattenedIsConsistent(cfg: Config, raw: Overwrites, cur: Overwrites)
    requires cfg.Valid() && PartlyFlattened(cfg, raw, cur) && Consistent(cfg.known, raw)
    ensures Consistent(cfg.known, cur)
  {
    forall t, key, v, w | Offers(cfg.known, cur, t, key, v) && Offers(cfg.known, cur, t, key, w) ensures v == w {
      OffersIgnoreFlattening(cfg, raw, cur, t, key, v);
      OffersIgnoreFlattening(cfg, raw, cur, t, key, w);
    }
  }

  lemma SameFirst(cfg: Config, raw: Overwrites, cur: Overwrites, name: Name, key: string)
    requires cfg.Valid() && PartlyFlattened(cfg, raw, cur) && Consistent(cfg.known, raw)
    ensures
      var types := [name] + Parents(cfg.known, name);
      FirstDefining(cur, types, key) == FirstDefining(raw, types, key)
  {
    var types := [name] + Parents(cfg.known, name);
    GetIsOffered(cfg.known, cur, name, key);
    GetIsOffered(cfg.known, raw, name, key);
    if FirstDefining(cur, types, key).Some? {
      OffersIgnoreFlattening(cfg, raw, cur, name, key, FirstDefining(cur, types, key).value);
    } else if FirstDefining(raw, types, key).Some? {
      var z := FirstIsDefined(raw, types, key);
      FirstDefiningMember(cur, types, z, key);
    }
  }

  /** No key order and no half-finished flattening can be observed through `get`. */
  lemma PartlyFlattenedGet(cfg: Config, raw: Overwrites, cur: Overwrites, name: Name)
    requires cfg.Valid() && PartlyFlattened(cfg, raw, cur) && Consistent(cfg.known, raw)
    ensures Get(cfg, cur, name) == Get(cfg, raw, name)
  {
    var types := [name] + Parents(cfg.known, name);
    NoEntries(raw, types);
    NoEntries(cur, types);
    var a, b := Get(cfg, cur, name), Get(cfg, raw, name);
    forall key
      ensures a.Some? && b.Some? ==>
        (key in a.value <==> key in b.value) && (key in a.value ==> a.value[key] == b.value[key])
    {
      ReversedAssignment(cur, types, key);
      ReversedAssignment(raw, types, key);
      SameFirst(cfg, raw, cur, name, key);
    }
    assert a.Some? ==> a.value == b.value;
  }

  lemma RawIsPartlyFlattened(cfg: Config, raw: Overwrites)
    requires cfg.Valid()
    ensures PartlyFlattened(cfg, raw, raw)
  {
    assert forall t, k :: t in raw && k in raw[t] ==> Defines(raw, t, k);
  }

  /**
   On every hierarchy: whatever order `setPlainData` visits the types in, `get` answers
   as if the overwrites had been left as they were given, provided that no type can
   inherit two values for one field.
   */
  lemma FlatteningIsInvisible(cfg: Config, raw: Overwrites, order: seq<Name>, name: Name)
    requires cfg.Valid() && Consistent(cfg.known, raw)
    requires forall t :: t in order ==> t in raw
    ensures Get(cfg, Flatten(cfg, raw, order), name) == Get(cfg, raw, name)
    ensures Flatten(cfg, raw, order).Keys == raw.Keys
  {
    RawIsPartlyFlattened(cfg, raw);
    FlattenKeepsInheritance(cfg, raw, raw, [], order);
    PartlyFlattenedGet(cfg, raw, Flatten(cfg, raw, order), name);
  }

  /** Saving the flattened overwrites and loading them again changes no answer. */
  lemma ReloadIsInvisible(cfg: Config, raw: Overwrites, saveOrder: seq<Name>, loadOrder: seq<Name>, name: Name)
    requires cfg.Valid() && Consistent(cfg.known, raw)
    requires forall t :: t in saveOrder || t in loadOrder ==> t in raw
    ensures
      var saved := Flatten(cfg, raw, saveOrder);
      Get(cfg, Flatten(cfg, saved, loadOrder), name) == Get(cfg, saved, name) == Get(cfg, raw, name)
  {
    var saved := Flatten(cfg, raw, saveOrder);
    FlatteningIsInvisible(cfg, raw, saveOrder, name);
    RawIsPartlyFlattened(cfg, raw);
    FlattenKeepsInheritance(cfg, raw, raw, [], saveOrder);
    FlattenedIsConsistent(cfg, raw, saved);
    FlatteningIsInvisible(cfg, saved, loadOrder, name);
  }

  /** With single inheritance, all of this holds of every overwrite map. */
  lemma SingleInheritanceFlattensInvisibly(cfg: Config, raw: Overwrites, saveOrder: seq<Name>, loadOrder: seq<Name>,
                                           name: Name)
    requires cfg.Valid() && SingleInheritance(cfg.known)
    requires forall t :: t in saveOrder || t in loadOrder ==> t in raw
    ensures
      var saved := Flatten(cfg, raw, saveOrder);
      Get(cfg, Flatten(cfg, saved, loadOrder), name) == Get(cfg, saved, name) == Get(cfg, raw, name)
  {
    SingleInheritanceIsConsistent(cfg.known, raw);
    ReloadIsInvisible(cfg, raw, saveOrder, loadOrder, name);
  }

  // ---------- flattening is complete ----------

  ghost predicate Reaches(known: Hierarchy, t: Name, z: Name) {
    z == t || IsAncestor(known, t, z)
  }

  lemma ReachesOn(known: Hierarchy, x: Name, y: Name, z: Name)
    requires Reaches(known, x, y) && Reaches(known, y, z)
    ensures Reaches(known, x, z)
  {
    if y != x && z != y {
      AncestorTransitive(known, x, y, z);
    }
  }

  lemma ParentIsReached(known: Hierarchy, t: Name, p: Name)
    requires p in Extends(known, t)
    ensures Reaches(known, t, p)
  {
    EdgeIsAncestor(known, t, p);
  }

  /** The type or one of its ancestors has the field. */
  ghost predicate CanInherit(known: Hierarchy, data: Overwrites, t: Name, key: string) {
    exists z :: Reaches(known, t, z) && Defines(data, z, key)
  }

  lemma InheritedThroughParent(known: Hierarchy, data: Overwrites, t: Name, key: string) returns (p: Name)
    requires CanInherit(known, data, t, key) && !Defines(data, t, key)
    ensures p in Extends(known, t) && CanInherit(known, data, p, key)
  {
    var z :| Reaches(known, t, z) && Defines(data, z, key);
    p := AncestorThroughParent(known, t, z);
    assert Reaches(known, p, z);
  }

  lemma {:induction false} SomethingIsOffered(known: Hierarchy, data: Overwrites, t: Name, key: string)
    requires Acyclic(known) && CanInherit(known, data, t, key)
    ensures exists v :: Offers(known, data, t, key, v)
    decreases Rank(known, t)
  {
    if Defines(data, t, key) {
      assert Offers(known, data, t, key, data[t][key]);
    } else {
      ParentsAreBelow(known, t);
      var p := InheritedThroughParent(known, data, t, key);
      SomethingIsOffered(known, data, p, key);
      var v :| Offers(known, data, p, key, v);
      assert Offers(known, data, t, key, v);
    }
  }

  /** An ancestor that was resolved before without the field, although it could inherit it. */
  ghost predicate Gap(known: Hierarchy, raw: Overwrites, cur: Overwrites, resolved: seq<Name>, t: Name, key: string) {
    exists z :: z in resolved && Reaches(known, t, z) && CanInherit(known, raw, z, key) && !Defines(cur, z, key)
  }

  ghost predicate Recognised(cfg: Config, t: Name) {
    forall z :: Reaches(cfg.known, t, z) ==> z in cfg.recognized
  }

  lemma RecognisedParent(cfg: Config, t: Name, p: Name)
    requires Recognised(cfg, t) && p in Extends(cfg.known, t)
    ensures Recognised(cfg, p)
  {
    ParentIsReached(cfg.known, t, p);
    forall z | Reaches(cfg.known, p, z) ensures z in cfg.recognized {
      ReachesOn(cfg.known, t, p, z);
    }
  }

  /** Resolving a type marks nothing but itself and its ancestors, and unmarks nothing. */
  lemma {:induction false} ResolveMarks(cfg: Config, cur: Overwrites, resolved: seq<Name>, t: Name, z: Name)
    requires cfg.Valid()
    ensures z in Resolve(cfg, cur, resolved, t).1 ==> z in resolved || Reaches(cfg.known, t, z)
    ensures z in resolved ==> z in Resolve(cfg, cur, resolved, t).1
    ensures t in cfg.recognized ==> t in Resolve(cfg, cur, resolved, t).1
    decreases Rank(cfg.known, t)
  {
    if t !in resolved && t in cfg.recognized && t in cfg.known {
      ParentsAreBelow(cfg.known, t);
      MergeMarks(cfg, cur, resolved, t, cfg.known[t], map[], Rank(cfg.known, t), z);
    }
  }

  lemma {:induction false} MergeMarks(cfg: Config, cur: Overwrites, resolved: seq<Name>, t: Name, parents: seq<Name>,
                                      acc: Data, h: nat, z: Name)
    requires cfg.Valid() && Below(cfg.known, parents, h)
    requires forall p :: p in parents ==> p in Extends(cfg.known, t)
    ensures
      var after := MergeParents(cfg, cur, resolved, parents, acc, h).1;
      (z in after ==> z in resolved || Reaches(cfg.known, t, z)) && (z in resolved ==> z in after)
    decreases h, |parents|
  {
    if parents != [] {
      var p := parents[0];
      assert p in parents;
      var (parent, resolved') := Resolve(cfg, cur, resolved, p);
      ResolveMarks(cfg, cur, resolved, p, z);
      ParentIsReached(cfg.known, t, p);
      if Reaches(cfg.known, p, z) {
        ReachesOn(cfg.known, t, p, z);
      }
      MergeMarks(cfg, cur, resolved', t, parents[1..], Assign(acc, parent), h, z);
    }
  }

  /** The parents before have been merged, or an ancestor of `t` had a gap to begin with. */
  ghost predicate Merged(cfg: Config, raw: Overwrites, cur: Overwrites, first: seq<Name>, t: Name, done: seq<Name>,
                         acc: Data, key: string) {
    (exists p :: p in done && CanInherit(cfg.known, raw, p, key)) ==>
      key in acc || Gap(cfg.known, raw, cur, first, t, key)
  }

  /** Every name is resolved from the start or through a parent that has been merged. */
  ghost predicate MarkedBy(cfg: Config, first: seq<Name>, resolved: seq<Name>, done: seq<Name>) {
    forall z :: z in resolved ==> z in first || exists p :: p in done && Reaches(cfg.known, p, z)
  }

  lemma MarkOneMore(cfg: Config, cur: Overwrites, first: seq<Name>, resolved: seq<Name>, done: seq<Name>, p: Name)
    requires cfg.Valid() && MarkedBy(cfg, first, resolved, done)
    ensures MarkedBy(cfg, first, Resolve(cfg, cur, resolved, p).1, done + [p])
  {
    forall z | z in Resolve(cfg, cur, resolved, p).1
      ensures z in first || exists q :: q in done + [p] && Reaches(cfg.known, q, z)
    {
      ResolveMarks(cfg, cur, resolved, p, z);
      if z in resolved && z !in first {
        var q :| q in done && Reaches(cfg.known, q, z);
        assert q in done + [p];
      } else {
        assert p in done + [p];
      }
    }
  }

  lemma MergeOneMore(cfg: Config, raw: Overwrites, cur: Overwrites, first: seq<Name>, resolved: seq<Name>, t: Name,
                     done: seq<Name>, p: Name, acc: Data, parent: Option<Data>, key: string)
    requires Merged(cfg, raw, cur, first, t, done, acc, key) && MarkedBy(cfg, first, resolved, done)
    requires p in Extends(cfg.known, t)
    requires CanInherit(cfg.known, raw, p, key) ==>
      (parent.Some? && key in parent.value) || Gap(cfg.known, raw, cur, resolved, p, key)
    ensures Merged(cfg, raw, cur, first, t, done + [p], Assign(acc, parent), key)
  {
    if CanInherit(cfg.known, raw, p, key) && !(parent.Some? && key in parent.value) {
      var z :| z in resolved && Reaches(cfg.known, p, z) && CanInherit(cfg.known, raw, z, key) && !Defines(cur, z, key);
      if z in first {
        ParentIsReached(cfg.known, t, p);
        ReachesOn(cfg.known, t, p, z);
      } else {
        var q :| q in done && Reaches(cfg.known, q, z);
        var d :| Reaches(cfg.known, z, d) && Defines(raw, d, key);
        ReachesOn(cfg.known, q, z, d);
      }
    }
  }

  lemma {:induction false} MergeComplete(cfg: Config, raw: Overwrites, cur: Overwrites, first: seq<Name>,
                                         resolved: seq<Name>, t: Name, done: seq<Name>, parents: seq<Name>, acc: Data,
                                         h: nat, key: string)
    requires cfg.Valid() && PartlyFlattened(cfg, raw, cur) && Below(cfg.known, parents, h) && Recognised(cfg, t)
    requires forall p :: p in parents ==> p in Extends(cfg.known, t)
    requires Merged(cfg, raw, cur, first, t, done, acc, key) && MarkedBy(cfg, first, resolved, done)
    ensures Merged(cfg, raw, cur, first, t, done + parents, MergeParents(cfg, cur, resolved, parents, acc, h).0, key)
    decreases h, |parents|
  {
    if parents == [] {
      assert done + parents == done;
    } else {
      var p := parents[0];
      assert p in parents;
      var (parent, resolved') := Resolve(cfg, cur, resolved, p);
      RecognisedParent(cfg, t, p);
      if CanInherit(cfg.known, raw, p, key) {
        ResolveComplete(cfg, raw, cur, resolved, p, key);
      }
      MarkOneMore(cfg, cur, first, resolved, done, p);
      MergeOneMore(cfg, raw, cur, first, resolved, t, done, p, acc, parent, key);
      MergeComplete(cfg, raw, cur, first, resolved', t, done + [p], parents[1..], Assign(acc, parent), h, key);
      assert done + [p] + parents[1..] == done + parents;
    }
  }

  /** A resolved type has every field that it can inherit, unless an ancestor had been resolved without it. */
  lemma {:induction false} ResolveComplete(cfg: Config, raw: Overwrites, cur: Overwrites, resolved: seq<Name>, t: Name,
                                           key: string)
    requires cfg.Valid() && PartlyFlattened(cfg, raw, cur) && Recognised(cfg, t)
    requires CanInherit(cfg.known, raw, t, key)
    ensures
      var r := Resolve(cfg, cur, resolved, t).0;
      (r.Some? && key in r.value) || Gap(cfg.known, raw, cur, resolved, t, key)
    decreases Rank(cfg.known, t)
  {
    assert Reaches(cfg.known, t, t);
    if t in resolved {
      assert Defines(cur, t, key) || Gap(cfg.known, raw, cur, resolved, t, key);
    } else if !Defines(raw, t, key) {
      var p := InheritedThroughParent(cfg.known, raw, t, key);
      ParentsAreBelow(cfg.known, t);
      var ext := cfg.known[t];
      MergeComplete(cfg, raw, cur, resolved, resolved, t, [], ext, map[], Rank(cfg.known, t), key);
      assert [] + ext == ext && p in ext;
    } else {
      assert Defines(cur, t, key);
    }
  }

  // ---------- what is stored ----------

  /** The entry has exactly the fields that the type can inherit, with the values that no definition hides. */
  ghost predicate HasAllItInherits(known: Hierarchy, raw: Overwrites, t: Name, entry: Data)
    requires Acyclic(known)
  {
    forall k, v :: k in entry && entry[k] == v <==> Offers(known, raw, t, k, v)
  }

  lemma CompleteEntry(cfg: Config, raw: Overwrites, t: Name, entry: Data)
    requires cfg.Valid() && Consistent(cfg.known, raw) && Inherited(cfg, raw, t, entry)
    requires forall k :: CanInherit(cfg.known, raw, t, k) ==> k in entry
    ensures HasAllItInherits(cfg.known, raw, t, entry)
  {
    forall k, v | Offers(cfg.known, raw, t, k, v) ensures k in entry && entry[k] == v {
      var z := OfferIsDefined(cfg.known, raw, t, k, v);
      assert Reaches(cfg.known, t, z);
    }
  }

  /** A type that has been resolved keeps its entry. */
  lemma {:induction false} ResolvedKeepsEntry(cfg: Config, cur: Overwrites, resolved: seq<Name>, order: seq<Name>,
                                              t: Name)
    requires cfg.Valid() && t in resolved && t in cur
    ensures
      var after := FlattenFrom(cfg, cur, resolved, order);
      t in after && after[t] == cur[t]
    decreases |order|
  {
    if order != [] {
      var (r, resolved') := Resolve(cfg, cur, resolved, order[0]);
      ResolveMarks(cfg, cur, resolved, order[0], t);
      ResolvedKeepsEntry(cfg, Store(cur, order[0], r), resolved', order[1..], t);
    }
  }

  /** Types that are not recognised are skipped. */
  lemma {:induction false} UnrecognisedKeepsEntry(cfg: Config, raw: Overwrites, cur: Overwrites, resolved: seq<Name>,
                                                  order: seq<Name>, t: Name)
    requires cfg.Valid() && t !in cfg.recognized && t !in resolved && t in cur
    ensures
      var after := FlattenFrom(cfg, cur, resolved, order);
      t in after && after[t] == cur[t]
    decreases |order|
  {
    if order != [] {
      var (r, resolved') := Resolve(cfg, cur, resolved, order[0]);
      OnlyRecognisedMarks(cfg, cur, resolved, order[0], t);
      UnrecognisedKeepsEntry(cfg, raw, Store(cur, order[0], r), resolved', order[1..], t);
    }
  }

  lemma {:induction false} OnlyRecognisedMarks(cfg: Config, cur: Overwrites, resolved: seq<Name>, t: Name, z: Name)
    requires cfg.Valid() && z !in cfg.recognized && z !in resolved
    ensures z !in Resolve(cfg, cur, resolved, t).1
    decreases Rank(cfg.known, t)
  {
    if t !in resolved && t in cfg.recognized && t in cfg.known {
      ParentsAreBelow(cfg.known, t);
      OnlyRecognisedMerges(cfg, cur, resolved, cfg.known[t], map[], Rank(cfg.known, t), z);
    }
  }

  lemma {:induction false} OnlyRecognisedMerges(cfg: Config, cur: Overwrites, resolved: seq<Name>, parents: seq<Name>,
                                                acc: Data, h: nat, z: Name)
    requires cfg.Valid() && Below(cfg.known, parents, h) && z !in cfg.recognized && z !in resolved
    ensures z !in MergeParents(cfg, cur, resolved, parents, acc, h).1
    decreases h, |parents|
  {
    if parents != [] {
      assert parents[0] in parents;
      var (parent, resolved') := Resolve(cfg, cur, resolved, parents[0]);
      OnlyRecognisedMarks(cfg, cur, resolved, parents[0], z);
      OnlyRecognisedMerges(cfg, cur, resolved', parents[1..], Assign(acc, parent), h, z);
    }
  }

  /** None of the types that `t` extends is recognised. */
  predicate HasNoRecognisedParent(cfg: Config, t: Name) {
    forall p :: p in Extends(cfg.known, t) ==> p !in cfg.recognized
  }

  lemma {:induction false} UnrecognisedMergeNothing(cfg: Config, cur: Overwrites, resolved: seq<Name>,
                                                    parents: seq<Name>, acc: Data, h: nat)
    requires cfg.Valid() && Below(cfg.known, parents, h)
    requires forall p :: p in parents ==> p !in cfg.recognized && p !in resolved
    ensures MergeParents(cfg, cur, resolved, parents, acc, h) == (acc, resolved)
    decreases |parents|
  {
    if parents != [] {
      assert parents[0] in parents;
      UnrecognisedMergeNothing(cfg, cur, resolved, parents[1..], acc, h);
    }
  }

  /** Nothing is inherited through a type that is not recognised. */
  lemma {:induction false} UnrecognisedParentsGiveNothing(cfg: Config, cur: Overwrites, resolved: seq<Name>,
                                                          order: seq<Name>, t: Name)
    requires cfg.Valid() && HasNoRecognisedParent(cfg, t) && t in cur
    requires forall z :: z in resolved ==> z in cfg.recognized
    ensures
      var after := FlattenFrom(cfg, cur, resolved, order);
      t in after && after[t] == cur[t]
    decreases |order|
  {
    if order != [] {
      var first := order[0];
      var (r, resolved') := Resolve(cfg, cur, resolved, first);
      forall z | z in resolved' ensures z in cfg.recognized {
        if z !in cfg.recognized {
          OnlyRecognisedMarks(cfg, cur, resolved, first, z);
        }
      }
      if first == t && t !in resolved && t in cfg.recognized && t in cfg.known {
        ParentsAreBelow(cfg.known, t);
        UnrecognisedMergeNothing(cfg, cur, resolved, cfg.known[t], map[], Rank(cfg.known, t));
        assert r == Some(map[] + cur[t]) && map[] + cur[t] == cur[t];
      }
      UnrecognisedParentsGiveNothing(cfg, Store(cur, first, r), resolved', order[1..], t);
    }
  }

  /** No name that `t` reaches has been resolved, or is reached by a key visited before. */
  ghost predicate Untouched(cfg: Config, resolved: seq<Name>, earlier: seq<Name>, t: Name) {
    forall z :: Reaches(cfg.known, t, z) ==> z !in resolved && forall s :: s in earlier ==> !Reaches(cfg.known, s, z)
  }

  lemma {:induction false} UntouchedIsComplete(cfg: Config, raw: Overwrites, cur: Overwrites, resolved: seq<Name>,
                                               order: seq<Name>, n: nat, key: string)
    requires cfg.Valid() && PartlyFlattened(cfg, raw, cur) && n < |order| && forall t :: t in order ==> t in raw
    requires Recognised(cfg, order[n]) && Untouched(cfg, resolved, order[..n], order[n])
    requires CanInherit(cfg.known, raw, order[n], key)
    ensures Defines(FlattenFrom(cfg, cur, resolved, order), order[n], key)
    decreases |order|
  {
    var first, t := order[0], order[n];
    assert first in order && Reaches(cfg.known, t, t);
    var (r, resolved') := Resolve(cfg, cur, resolved, first);
    ResolveInherits(cfg, raw, cur, resolved, first);
    if n == 0 {
      ResolveComplete(cfg, raw, cur, resolved, t, key);
      ResolveMarks(cfg, cur, resolved, t, t);
      ResolvedKeepsEntry(cfg, Store(cur, t, r), resolved', order[1..], t);
    } else {
      assert first in order[..n] && order[1..][n - 1] == t;
      forall z | Reaches(cfg.known, t, z)
        ensures z !in resolved' && forall s :: s in order[1..][..n - 1] ==> !Reaches(cfg.known, s, z)
      {
        ResolveMarks(cfg, cur, resolved, first, z);
        assert forall s :: s in order[1..][..n - 1] ==> s in order[..n];
      }
      UntouchedIsComplete(cfg, raw, Store(cur, first, r), resolved', order[1..], n - 1, key);
    }
  }

  /**
   After `setPlainData`, a type has exactly what it can inherit, provided that no key
   visited before it has an ancestor in common with it; the first key always has.
   */
  lemma IndependentTypesAreFlattened(cfg: Config, raw: Overwrites, order: seq<Name>, n: nat)
    requires cfg.Valid() && Consistent(cfg.known, raw) && n < |order| && forall t :: t in order ==> t in raw
    requires Recognised(cfg, order[n]) && Untouched(cfg, [], order[..n], order[n])
    ensures
      var after := Flatten(cfg, raw, order);
      order[n] in after && HasAllItInherits(cfg.known, raw, order[n], after[order[n]])
  {
    var t := order[n];
    assert t in order;
    RawIsPartlyFlattened(cfg, raw);
    FlattenKeepsInheritance(cfg, raw, raw, [], order);
    forall k | CanInherit(cfg.known, raw, t, k) ensures k in Flatten(cfg, raw, order)[t] {
      UntouchedIsComplete(cfg, raw, raw, [], order, n, k);
    }
    CompleteEntry(cfg, raw, t, Flatten(cfg, raw, order)[t]);
  }

  /** Every ancestor of a key is a key as well, visited before it. */
  ghost predicate AncestorsFirst(cfg: Config, order: seq<Name>) {
    forall i, z :: 0 <= i < |order| && IsAncestor(cfg.known, order[i], z) ==> z in order[..i]
  }

  /** What has been resolved is resolved with its ancestors, and has all that it can inherit. */
  ghost predicate NoGaps(cfg: Config, raw: Overwrites, cur: Overwrites, resolved: seq<Name>) {
    (forall z, k :: z in resolved && CanInherit(cfg.known, raw, z, k) ==> Defines(cur, z, k)) &&
    forall z :: z in resolved ==> z in cur
  }

  lemma {:induction false} AncestorsFirstIsComplete(cfg: Config, raw: Overwrites, cur: Overwrites, resolved: seq<Name>,
                                                    order: seq<Name>, n: nat)
    requires cfg.Valid() && PartlyFlattened(cfg, raw, cur) && n <= |order| && forall t :: t in order ==> t in raw
    requires AncestorsFirst(cfg, order) && forall t :: t in order ==> Recognised(cfg, t)
    requires NoGaps(cfg, raw, cur, resolved) && forall t :: t in order[..n] ==> t in resolved
    ensures
      var after := FlattenFrom(cfg, cur, resolved, order[n..]);
      forall t, k :: t in order && CanInherit(cfg.known, raw, t, k) ==> Defines(after, t, k)
    decreases |order| - n
  {
    if n == |order| {
      assert order[..n] == order && order[n..] == [];
    } else {
      var t := order[n];
      var (r, resolved') := Resolve(cfg, cur, resolved, t);
      ResolveInherits(cfg, raw, cur, resolved, t);
      VisitLeavesNoGaps(cfg, raw, cur, resolved, order, n);
      assert order[n..][0] == t && order[n..][1..] == order[n + 1..];
      forall s | s in order[..n + 1] ensures s in resolved' {
        ResolveMarks(cfg, cur, resolved, t, s);
        assert Reaches(cfg.known, t, t);
        assert s == t || s in order[..n];
      }
      AncestorsFirstIsComplete(cfg, raw, Store(cur, t, r), resolved', order, n + 1);
    }
  }

  lemma VisitLeavesNoGaps(cfg: Config, raw: Overwrites, cur: Overwrites, resolved: seq<Name>, order: seq<Name>, n: nat)
    requires cfg.Valid() && PartlyFlattened(cfg, raw, cur) && n < |order| && forall t :: t in order ==> t in raw
    requires AncestorsFirst(cfg, order) && forall t :: t in order ==> Recognised(cfg, t)
    requires NoGaps(cfg, raw, cur, resolved) && forall t :: t in order[..n] ==> t in resolved
    ensures
      var (r, resolved') := Resolve(cfg, cur, resolved, order[n]);
      NoGaps(cfg, raw, Store(cur, order[n], r), resolved')
  {
    var t := order[n];
    var (r, resolved') := Resolve(cfg, cur, resolved, t);
    var after := Store(cur, t, r);
    ResolveInherits(cfg, raw, cur, resolved, t);
    forall z | z in resolved' ensures z in after && (z == t || z in resolved) {
      ResolveMarks(cfg, cur, resolved, t, z);
      assert z != t && Reaches(cfg.known, t, z) ==> z in order[..n];
    }
    forall z, k | z in resolved' && CanInherit(cfg.known, raw, z, k) ensures Defines(after, z, k) {
      if z == t {
        ResolveComplete(cfg, raw, cur, resolved, t, k);
      }
    }
  }

  /** When every ancestor is visited first, everything is flattened. */
  lemma AncestorsFirstFlattensAll(cfg: Config, raw: Overwrites, order: seq<Name>, t: Name)
    requires cfg.Valid() && Consistent(cfg.known, raw) && forall s :: s in order ==> s in raw
    requires AncestorsFirst(cfg, order) && (forall s :: s in order ==> Recognised(cfg, s)) && t in order
    ensures
      var after := Flatten(cfg, raw, order);
      t in after && HasAllItInherits(cfg.known, raw, t, after[t])
  {
    RawIsPartlyFlattened(cfg, raw);
    FlattenKeepsInheritance(cfg, raw, raw, [], order);
    AncestorsFirstIsComplete(cfg, raw, raw, [], order, 0);
    assert order[0..] == order;
    forall k | CanInherit(cfg.known, raw, t, k) ensures k in Flatten(cfg, raw, order)[t] {
      assert Defines(FlattenFrom(cfg, raw, [], order[0..]), t, k);
    }
    CompleteEntry(cfg, raw, t, Flatten(cfg, raw, order)[t]);
  }

  // ---------- applyOverwrite and usesManagedAuth ----------

  function Read(data: Data, key: string): Value {
    if key in data then data[key] else Undefined
  }

  predicate IsEmpty(v: Value) {
    v == Null || v == Undefined || v == Text("")
  }

  function DeepCopyValue(v: Value): Value {
    if v.Obj? then Obj(Copied(v.ref), v.body) else v
  }

  function DeepCopy(data: Data): Data {
    map key | key in data :: DeepCopyValue(data[key])
  }

  /** A stored field that the user has filled in with something else. */
  predicate IsFieldCustomized(data: Data, overwrites: Data, key: string)
    requires key in overwrites
  {
    !IsEmpty(Read(data, key)) && Read(data, key) != overwrites[key]
  }

  predicate SkipsOverwrite(cfg: Config, typeName: Name, overwrites: Data, data: Data) {
    typeName in cfg.skipTypes && exists key :: key in overwrites && IsFieldCustomized(data, overwrites, key)
  }

  /** The fields of `overwrites` put where `data` holds nothing. */
  function Fill(overwrites: Data, data: Data): Data {
    map key | key in data.Keys + overwrites.Keys ::
      if key in overwrites && IsEmpty(Read(data, key)) then overwrites[key] else Read(data, key)
  }

  function Apply(cfg: Config, overwrites: Option<Data>, typeName: Name, data: Data): Data {
    if overwrites.None? || SkipsOverwrite(cfg, typeName, overwrites.value, data) then data
    else Fill(overwrites.value, DeepCopy(data))
  }

  predicate UsesManagedAuth(cfg: Config, overwrites: Option<Data>, typeName: Name, data: Data) {
    overwrites.Some? &&
    var applied := Apply(cfg, overwrites, typeName, data);
    exists key :: key in overwrites.value && Read(applied, key) != Read(data, key)
  }

  /** A value up to the identity of the objects in it. */
  function Content(v: Value): Value {
    if v.Obj? then Obj(Original(0), v.body) else v
  }

  ghost predicate SameContent(a: Data, b: Data) {
    a.Keys == b.Keys && forall key :: key in a ==> Content(a[key]) == Content(b[key])
  }

  /** Applying twice is applying once. */
  lemma ApplyIsIdempotent(cfg: Config, overwrites: Option<Data>, typeName: Name, data: Data)
    ensures
      var once := Apply(cfg, overwrites, typeName, data);
      SameContent(Apply(cfg, overwrites, typeName, once), once)
  {
  }

  /** A stored value is never replaced, and nothing but overwritten fields is added. */
  lemma ApplyKeepsStoredValues(cfg: Config, overwrites: Option<Data>, typeName: Name, data: Data, key: string)
    ensures
      var applied := Apply(cfg, overwrites, typeName, data);
      (!IsEmpty(Read(data, key)) || overwrites.None? || key !in overwrites.value ==>
         Content(Read(applied, key)) == Content(Read(data, key))) &&
      (overwrites.Some? && SkipsOverwrite(cfg, typeName, overwrites.value, data) ==> applied == data)
  {
  }

  /** An overwritten field that holds an object is copied, so it is never identical to the stored one. */
  predicate CopiesAnObject(cfg: Config, overwrites: Option<Data>, typeName: Name, data: Data) {
    overwrites.Some? && !SkipsOverwrite(cfg, typeName, overwrites.value, data) &&
    exists key :: key in overwrites.value && Read(data, key).Obj?
  }

  /** Whether a value was really injected. */
  ghost predicate Injects(cfg: Config, overwrites: Option<Data>, typeName: Name, data: Data) {
    exists key :: Content(Read(Apply(cfg, overwrites, typeName, data), key)) != Content(Read(data, key))
  }

  /**
   `usesManagedAuth` means that applying the overwrite injects a value, except that it
   also answers yes whenever an overwritten field holds an object.
   */
  lemma ManagedIffInjectedOrCopied(cfg: Config, overwrites: Option<Data>, typeName: Name, data: Data)
    ensures UsesManagedAuth(cfg, overwrites, typeName, data)
       <==> Injects(cfg, overwrites, typeName, data) || CopiesAnObject(cfg, overwrites, typeName, data)
  {
    var applied := Apply(cfg, overwrites, typeName, data);
    if key :| Content(Read(applied, key)) != Content(Read(data, key)) {
      ApplyKeepsStoredValues(cfg, overwrites, typeName, data, key);
      assert key in overwrites.value && Read(applied, key) != Read(data, key);
    }
    if CopiesAnObject(cfg, overwrites, typeName, data) {
      var key :| key in overwrites.value && Read(data, key).Obj?;
      RefDiffers(Read(data, key).ref);
      assert Read(applied, key) != Read(data, key);
    }
    if UsesManagedAuth(cfg, overwrites, typeName, data) && !CopiesAnObject(cfg, overwrites, typeName, data) {
      var key :| key in overwrites.value && Read(applied, key) != Read(data, key);
      assert !Read(data, key).Obj?;
      assert Content(Read(applied, key)) != Content(Read(data, key)) by {
        assert IsEmpty(Read(data, key));
      }
    }
  }

  lemma {:induction false} RefDiffers(r: Ref)
    ensures Copied(r) != r
  {
    if r.Copied? {
      RefDiffers(r.source);
    }
  }

  /** With primitive fields, nothing is managed about a credential that already was overwritten. */
  lemma AppliedIsNotManaged(cfg: Config, overwrites: Option<Data>, typeName: Name, data: Data)
    requires forall key :: key in data ==> !data[key].Obj?
    requires overwrites.Some? ==> forall key :: key in overwrites.value ==> !overwrites.value[key].Obj?
    ensures !UsesManagedAuth(cfg, overwrites, typeName, Apply(cfg, overwrites, typeName, data))
  {
    var once := Apply(cfg, overwrites, typeName, data);
    ApplyIsIdempotent(cfg, overwrites, typeName, data);
    ManagedIffInjectedOrCopied(cfg, overwrites, typeName, once);
  }

  lemma FreshlyResolved(cfg: Config, data: Overwrites, resolved: seq<Name>, t: Name)
    requires cfg.Valid()
    ensures
      var r := Resolve(cfg, data, resolved, t).0;
      Consistent(cfg.known, data) && Recognised(cfg, t) && Untouched(cfg, resolved, [], t) ==>
        IsAllItInherits(cfg.known, data, t, r)
  {
    var r := Resolve(cfg, data, resolved, t).0;
    if Consistent(cfg.known, data) && Recognised(cfg, t) && Untouched(cfg, resolved, [], t) {
      RawIsPartlyFlattened(cfg, data);
      ResolveInherits(cfg, data, data, resolved, t);
      forall k | CanInherit(cfg.known, data, t, k) ensures r.Some? && k in r.value {
        ResolveComplete(cfg, data, data, resolved, t, k);
      }
      if r.Some? {
        CompleteEntry(cfg, data, t, r.value);
      }
    }
  }

  /** An answer with all that the type can inherit, or none if there is nothing to inherit. */
  ghost predicate IsAllItInherits(known: Hierarchy, data: Overwrites, t: Name, r: Option<Data>)
    requires Acyclic(known)
  {
    if r.Some? then HasAllItInherits(known, data, t, r.value) else forall k :: !CanInherit(known, data, t, k)
  }

  /** What `setPlainData` promises of the map it leaves, whatever it does to get there. */
  ghost predicate IsFlattened(cfg: Config, raw: Overwrites, order: seq<Name>, after: Overwrites)
    requires cfg.Valid()
  {
    after.Keys == raw.Keys &&
    (forall t, k :: t in raw && k in raw[t] ==> k in after[t] && after[t][k] == raw[t][k]) &&
    (forall t :: t in raw && (t !in cfg.recognized || HasNoRecognisedParent(cfg, t)) ==> after[t] == raw[t]) &&
    (Consistent(cfg.known, raw) ==>
       forall n :: 0 <= n < |order| && order[n] in raw && IsIndependent(cfg, order, n) ==>
         HasAllItInherits(cfg.known, raw, order[n], after[order[n]])) &&
    (Consistent(cfg.known, raw) && AncestorsFirst(cfg, order) && (forall t :: t in order ==> Recognised(cfg, t)) ==>
       forall t :: t in order && t in raw ==> HasAllItInherits(cfg.known, raw, t, after[t]))
  }

  /** The n-th key is recognised with its ancestors, and no key before it has an ancestor in common with it. */
  ghost predicate IsIndependent(cfg: Config, order: seq<Name>, n: nat)
    requires n < |order|
  {
    Recognised(cfg, order[n]) && Untouched(cfg, [], order[..n], order[n])
  }

  /** So the first key always is, if it is recognised. */
  lemma FirstIsIndependent(cfg: Config, order: seq<Name>)
    requires order != [] && Recognised(cfg, order[0])
    ensures IsIndependent(cfg, order, 0)
  {
  }

  lemma FlattenIsFlattened(cfg: Config, raw: Overwrites, order: seq<Name>)
    requires cfg.Valid() && forall t :: t in order ==> t in raw
    ensures IsFlattened(cfg, raw, order, Flatten(cfg, raw, order))
  {
    var after := Flatten(cfg, raw, order);
    RawIsPartlyFlattened(cfg, raw);
    FlattenKeepsInheritance(cfg, raw, raw, [], order);
    forall t, k | t in raw && k in raw[t] ensures k in after[t] && after[t][k] == raw[t][k] {
      assert Defines(raw, t, k) && Offers(cfg.known, raw, t, k, after[t][k]);
    }
    forall t | t in raw && (t !in cfg.recognized || HasNoRecognisedParent(cfg, t)) ensures after[t] == raw[t] {
      if t !in cfg.recognized {
        UnrecognisedKeepsEntry(cfg, raw, raw, [], order, t);
      } else {
        UnrecognisedParentsGiveNothing(cfg, raw, [], order, t);
      }
    }
    if Consistent(cfg.known, raw) {
      forall n | 0 <= n < |order| && IsIndependent(cfg, order, n)
        ensures HasAllItInherits(cfg.known, raw, order[n], after[order[n]])
      {
        IndependentTypesAreFlattened(cfg, raw, order, n);
      }
      if AncestorsFirst(cfg, order) && forall t :: t in order ==> Recognised(cfg, t) {
        forall t | t in order ensures HasAllItInherits(cfg.known, raw, t, after[t]) {
          AncestorsFirstFlattensAll(cfg, raw, order, t);
        }
      }
    }
  }

  // ---------- what callers see ----------

  /** The stored field has a value: it is not missing, undefined, null or the empty string. */
  predicate HasValue(data: Data, key: string) {
    key in data && data[key] != Undefined && data[key] != Null && data[key] != Text("")
  }

  /** On a skip-list type, some field of the overwrite has been set to something else. */
  predicate Customised(cfg: Config, typeName: Name, overwrites: Data, data: Data) {
    typeName in cfg.skipTypes && exists key :: key in overwrites && HasValue(data, key) && data[key] != overwrites[key]
  }

  /** A deep copy: primitives stay, and an object is a new one with the same body. */
  predicate IsCopyOf(copy: Value, v: Value) {
    if v.Obj? then copy.Obj? && copy.body == v.body && copy.ref == Copied(v.ref) else copy == v
  }

  /** Every overwritten field without a value has the overwrite's, and all other fields are as they were. */
  ghost predicate IsFilled(overwrites: Data, data: Data, r: Data) {
    r.Keys == data.Keys + overwrites.Keys &&
    forall key :: key in r ==>
      if key in overwrites && !HasValue(data, key) then r[key] == overwrites[key]
      else key in data && IsCopyOf(r[key], data[key])
  }

  lemma SkippedIffCustomised(cfg: Config, typeName: Name, overwrites: Data, data: Data)
    ensures SkipsOverwrite(cfg, typeName, overwrites, data) <==> Customised(cfg, typeName, overwrites, data)
  {
    forall key | key in overwrites
      ensures IsFieldCustomized(data, overwrites, key) <==> HasValue(data, key) && data[key] != overwrites[key]
    {
      assert HasValue(data, key) <==> !IsEmpty(Read(data, key));
    }
  }

  lemma FillFills(overwrites: Data, data: Data)
    ensures IsFilled(overwrites, data, Fill(overwrites, DeepCopy(data)))
  {
    var copy := DeepCopy(data);
    forall key ensures IsEmpty(Read(copy, key)) <==> !HasValue(data, key) {
    }
  }

  /** `usesManagedAuth`, field by field. */
  lemma ManagedFieldByField(cfg: Config, overwrites: Option<Data>, typeName: Name, data: Data)
    ensures UsesManagedAuth(cfg, overwrites, typeName, data)
       <==> overwrites.Some? && !Customised(cfg, typeName, overwrites.value, data) &&
            exists key :: key in overwrites.value &&
              if HasValue(data, key) then data[key].Obj?
              else overwrites.value[key] != if key in data then data[key] else Undefined
  {
    if overwrites.Some? {
      SkippedIffCustomised(cfg, typeName, overwrites.value, data);
      if !Customised(cfg, typeName, overwrites.value, data) {
        FillFills(overwrites.value, data);
        var applied := Apply(cfg, overwrites, typeName, data);
        forall key | key in overwrites.value
          ensures Read(applied, key) != Read(data, key)
             <==> if HasValue(data, key) then data[key].Obj?
                  else overwrites.value[key] != if key in data then data[key] else Undefined
        {
          if HasValue(data, key) && data[key].Obj? {
            RefDiffers(data[key].ref);
          }
        }
      }
    }
  }

  /** `get` answers exactly when the type or one of its ancestors has an entry. */
  lemma GetAnswersIff(cfg: Config, data: Overwrites, name: Name)
    requires cfg.Valid()
    ensures Get(cfg, data, name).Some? <==> exists z :: Reaches(cfg.known, name, z) && z in data
  {
    var types := [name] + Parents(cfg.known, name);
    NoEntries(data, types);
    forall z ensures z in types <==> Reaches(cfg.known, name, z) {
      ParentMember(cfg.known, name, z);
    }
  }

  /** And with exactly the fields that the type can inherit, if it can inherit no field twice. */
  lemma GetHasAllItInherits(cfg: Config, data: Overwrites, name: Name)
    requires cfg.Valid() && Consistent(cfg.known, data) && Get(cfg, data, name).Some?
    ensures HasAllItInherits(cfg.known, data, name, Get(cfg, data, name).value)
  {
    var types := [name] + Parents(cfg.known, name);
    var entry := Get(cfg, data, name).value;
    forall k, v ensures k in entry && entry[k] == v <==> Offers(cfg.known, data, name, k, v) {
      ReversedAssignment(data, types, k);
      GetIsOffered(cfg.known, data, name, k);
    }
  }

  // ---------- the service ----------

  /** `order` is how `for ... in` enumerates the keys. */
  ghost predicate Enumerates(order: seq<Name>, data: Overwrites) {
    forall t :: t in order <==> t in data
  }

  class CredentialsOverwritesService {
    const cfg: Config
    const persistence: bool
    var overwriteData: Overwrites
    var resolvedTypes: seq<Name>
    /** The row that `saveOverwriteDataToDB` writes. */
    var setting: Option<Overwrites>

    ghost predicate Valid()
      reads this
    {
      cfg.Valid()
    }

    constructor (cfg: Config, persistence: bool)
      requires cfg.Valid()
      ensures Valid() && this.cfg == cfg && this.persistence == persistence
      ensures overwriteData == map[] && setting == None
    {
      this.cfg, this.persistence := cfg, persistence;
      overwriteData, resolvedTypes, setting := map[], [], None;
    }

    method GetOverwrites(typeName: Name) returns (r: Option<Data>)
      requires Valid()
      modifies this`resolvedTypes
      ensures (r, resolvedTypes) == Resolve(cfg, overwriteData, old(resolvedTypes), typeName)
      ensures Consistent(cfg.known, overwriteData) && Recognised(cfg, typeName) &&
              Untouched(cfg, old(resolvedTypes), [], typeName) ==>
                IsAllItInherits(cfg.known, overwriteData, typeName, r)
      decreases Rank(cfg.known, typeName)
    {
      FreshlyResolved(cfg, overwriteData, resolvedTypes, typeName);
      if typeName in resolvedTypes {
        return Lookup(overwriteData, typeName);
      }
      if typeName !in cfg.recognized {
        return None;
      }
      if typeName !in cfg.known {
        resolvedTypes := resolvedTypes + [typeName];
        return Lookup(overwriteData, typeName);
      }
      var overwrites: Data := map[];
      var ext := cfg.known[typeName];
      ghost var h := Rank(cfg.known, typeName);
      ParentsAreBelow(cfg.known, typeName);
      var i := 0;
      while i < |ext|
        invariant 0 <= i <= |ext|
        invariant MergeParents(cfg, overwriteData, old(resolvedTypes), ext, map[], h)
               == MergeParents(cfg, overwriteData, resolvedTypes, ext[i..], overwrites, h)
      {
        assert ext[i] in ext && ext[i..][1..] == ext[i + 1..];
        var parent := GetOverwrites(ext[i]);
        overwrites := Assign(overwrites, parent);
        i := i + 1;
      }
      if typeName in overwriteData {
        overwrites := overwrites + overwriteData[typeName];
      }
      resolvedTypes := resolvedTypes + [typeName];
      return Some(overwrites);
    }

    /** The given object becomes the stored one and is itself overwritten in place. */
    method SetPlainData(newData: Overwrites, order: seq<Name>)
      requires Valid() && Enumerates(order, newData)
      modifies this`overwriteData, this`resolvedTypes
      ensures overwriteData == Flatten(cfg, newData, order)
      ensures IsFlattened(cfg, newData, order, overwriteData)
    {
      FlattenIsFlattened(cfg, newData, order);
      resolvedTypes := [];
      overwriteData := newData;
      var i := 0;
      while i < |order|
        invariant 0 <= i <= |order|
        invariant FlattenFrom(cfg, overwriteData, resolvedTypes, order[i..]) == Flatten(cfg, newData, order)
      {
        assert order[i..][1..] == order[i + 1..];
        var overwrites := GetOverwrites(order[i]);
        if overwrites.Some? && overwrites.value != map[] {
          overwriteData := overwriteData[order[i] := overwrites.value];
        }
        i := i + 1;
      }
    }

    /** What is saved is the flattened object. */
    method SetData(newData: Overwrites, order: seq<Name>, storeInDb: bool)
      requires Valid() && Enumerates(order, newData)
      modifies this
      ensures overwriteData == Flatten(cfg, newData, order)
      ensures setting == if storeInDb && persistence then Some(overwriteData) else old(setting)
    {
      SetPlainData(newData, order);
      if storeInDb && persistence {
        setting := Some(overwriteData);
      }
    }

    method LoadOverwriteDataFromDB(order: seq<Name>)
      requires Valid() && (setting.Some? ==> Enumerates(order, setting.value))
      modifies this
      ensures setting == old(setting)
      ensures overwriteData
           == if setting.Some? then Flatten(cfg, setting.value, order) else old(overwriteData)
    {
      if setting.Some? {
        SetData(setting.value, order, false);
      }
    }

    method ApplyOverwrite(typeName: Name, data: Data) returns (r: Data)
      requires Valid()
      ensures r == Apply(cfg, Get(cfg, overwriteData, typeName), typeName, data)
      ensures
        var found := Get(cfg, overwriteData, typeName);
        if found.None? || Customised(cfg, typeName, found.value, data) then r == data
        else IsFilled(found.value, data, r)
    {
      var found := Get(cfg, overwriteData, typeName);
      if found.Some? {
        SkippedIffCustomised(cfg, typeName, found.value, data);
        FillFills(found.value, data);
      }
      if found.None? {
        return data;
      }
      var overwrites := found.value;
      if SkipsOverwrite(cfg, typeName, overwrites, data) {
        return data;
      }
      r := DeepCopy(data);
      var keys := overwrites.Keys;
      while keys != {}
        invariant keys <= overwrites.Keys
        invariant forall k :: k in keys ==> Read(r, k) == Read(DeepCopy(data), k) && (k in r <==> k in data)
        invariant forall k :: k !in overwrites ==> Read(r, k) == Read(DeepCopy(data), k) && (k in r <==> k in data)
        invariant forall k :: k in overwrites && k !in keys ==>
                    k in r && r[k] == Fill(overwrites, DeepCopy(data))[k]
      {
        var key :| key in keys;
        if IsEmpty(Read(r, key)) {
          r := r[key := overwrites[key]];
        }
        keys := keys - {key};
      }
    }

    /** Delegates to `applyOverwrite` and compares the overwritten fields. */
    method UsesManagedAuth(typeName: Name, data: Data) returns (managed: bool)
      requires Valid()
      ensures
        var found := Get(cfg, overwriteData, typeName);
        managed <==>
        found.Some? && !Customised(cfg, typeName, found.value, data) &&
        exists key :: key in found.value &&
          if HasValue(data, key) then data[key].Obj?
          else found.value[key] != if key in data then data[key] else Undefined
    {
      var found := Get(cfg, overwriteData, typeName);
      ManagedFieldByField(cfg, found, typeName, data);
      if found.None? {
        return false;
      }
      var applied := ApplyOverwrite(typeName, data);
      managed := exists key :: key in found.value && Read(applied, key) != Read(data, key);
    }
  }

  // ---------- why single inheritance is needed ----------

  lemma NoParents(known: Hierarchy, x: Name)
    requires Acyclic(known) && Extends(known, x) == []
    ensures Parents(known, x) == []
  {
  }

  lemma TwoParents(known: Hierarchy, x: Name, a: Name, b: Name)
    requires Acyclic(known) && Extends(known, x) == [a, b]
    requires Extends(known, a) == [] && Extends(known, b) == []
    ensures Parents(known, x) == [a, b]
  {
    var h := Rank(known, x);
    ParentsAreBelow(known, x);
    assert a in [a, b] && b in [a, b];
    NoParents(known, a);
    NoParents(known, b);
    DrainStep(known, [a, b], h);
    assert [a, b][1..] + Parents(known, a) == [b];
    DrainStep(known, [b], h);
    assert [b][1..] + Parents(known, b) == [];
  }

  function Field(d: Option<Data>, key: string): Option<Value> {
    if d.Some? && key in d.value then Some(d.value[key]) else None
  }

  lemma ResolveTwoParents(cfg: Config, raw: Overwrites, t: Name, a: Name, b: Name)
    requires cfg.Valid() && t in cfg.known && cfg.known[t] == [a, b]
    requires a != b && a !in cfg.known && b !in cfg.known && t in cfg.recognized
    requires {a, b} <= cfg.recognized
    ensures Resolve(cfg, raw, [], t).0
         == Some(Assign(Assign(Assign(map[], Lookup(raw, a)), Lookup(raw, b)), Lookup(raw, t)))
  {
    var h := Rank(cfg.known, t);
    ParentsAreBelow(cfg.known, t);
    var ext := cfg.known[t];
    assert a in ext && b in ext;
    assert ext[1..] == [b] && [b][1..] == [];
    var first := Assign(map[], Lookup(raw, a));
    assert Resolve(cfg, raw, [], a).0 == Lookup(raw, a);
    var resolved := Resolve(cfg, raw, [], a).1;
    assert resolved == [a];
    assert Resolve(cfg, raw, resolved, b).0 == Lookup(raw, b);
    var second := Assign(first, Lookup(raw, b));
    assert MergeParents(cfg, raw, resolved, [b], first, h).0 == second by {
      var more := Resolve(cfg, raw, resolved, b).1;
      assert MergeParents(cfg, raw, more, [], second, h).0 == second;
    }
    assert MergeParents(cfg, raw, [], ext, map[], h).0 == second;
  }

  /**
   With two parents, `getOverwrites` lets the later one win and `get` the earlier one.
   They agree on a field exactly when the type defines it or the parents do not
   contradict each other.
   */
  lemma TwoParentsAgreeIff(cfg: Config, raw: Overwrites, t: Name, a: Name, b: Name, key: string)
    requires cfg.Valid() && t in cfg.known && cfg.known[t] == [a, b]
    requires a != b && a !in cfg.known && b !in cfg.known && t in cfg.recognized
    requires {a, b} <= cfg.recognized
    ensures Field(Resolve(cfg, raw, [], t).0, key) == Field(Get(cfg, raw, t), key)
       <==> Defines(raw, t, key) || !Defines(raw, a, key) || !Defines(raw, b, key) || raw[a][key] == raw[b][key]
  {
    ResolveTwoParents(cfg, raw, t, a, b);
    TwoParents(cfg.known, t, a, b);
    var types := [t] + [a, b];
    ReversedAssignment(raw, types, key);
    assert types[1..] == [a, b] && [a, b][1..] == [b] && [b][1..] == [];
    assert FirstDefining(raw, [b], key) == if Defines(raw, b, key) then Some(raw[b][key]) else None;
    assert Entries(raw, Reverse(types)) == [] ==> AssignAll(map[], Entries(raw, Reverse(types))) == map[];
  }
}
