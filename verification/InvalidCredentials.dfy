/**
 Repairing the credential references of a workflow: `replaceInvalidCredentials`
 (packages/cli/src/workflow-helpers.ts).

 The source walks over all nodes with two caches.  `Resolve` is what the database
 alone says about one reference; the theorems compare the two.
 */
module InvalidCredentials {
  import opened Basics

  type CredentialType = string
  type Id = string

  /** The value stored under one credential type of a node. */
  datatype Reference =
    | Missing                                // null or undefined
    | GatewayManaged(tag: string)
    | Legacy(name: string)                   // a plain string
    | Details(id: Option<Id>, name: string)  // `id` may be null

  /** `safe` is the answer of `isSafeObjectProperty` for the type. */
  datatype Entry = Entry(credentialType: CredentialType, safe: bool, reference: Reference)

  datatype Node = Node(disabled: bool, credentials: seq<Entry>)

  /** A row of the credentials table. */
  datatype Row = Row(id: Id, name: string, credentialType: CredentialType, inProject: bool)

  /** A snapshot of the table; `id` is its primary key. */
  type Database = s: seq<Row> | forall i, j :: 0 <= i < j < |s| ==> s[i].id != s[j].id witness []

  /** `findOneBy({ id, type })` */
  function FindById(db: seq<Row>, t: CredentialType, id: Id): Option<Row> {
    if db == [] then None
    else if db[0].id == id && db[0].credentialType == t then Some(db[0])
    else FindById(db[1..], t, id)
  }

  /** `findByNameAndTypeInProject` */
  function FindByName(db: seq<Row>, t: CredentialType, name: string): seq<Row> {
    if db == [] then []
    else
      (if db[0].name == name && db[0].credentialType == t && db[0].inProject then [db[0]] else [])
      + FindByName(db[1..], t, name)
  }

  /** The rows found by name are exactly those of the project with that type and name. */
  lemma {:induction false} FoundByNameIff(db: seq<Row>, t: CredentialType, name: string, row: Row)
    ensures row in FindByName(db, t, name)
       <==> row in db && row.name == name && row.credentialType == t && row.inProject
    decreases |db|
  {
    if db != [] {
      FoundByNameIff(db[1..], t, name, row);
      assert row in db <==> row == db[0] || row in db[1..];
    }
  }

  /** A row found by name is also the row found by its id. */
  lemma {:induction false} FoundByName(db: Database, t: CredentialType, name: string, row: Row)
    requires row in FindByName(db, t, name)
    ensures row in db && row.name == name && row.credentialType == t && row.inProject
    ensures FindById(db, t, row.id) == Some(row)
  {
    FoundByNameIff(db, t, name, row);
    FoundByIdIff(db, t, row.id, row);
  }

  /** The row found by id is the one with that id, if it has the type, in whatever project. */
  lemma {:induction false} FoundByIdIff(db: Database, t: CredentialType, id: Id, row: Row)
    ensures FindById(db, t, id) == Some(row) <==> row in db && row.id == id && row.credentialType == t
    decreases |db|
  {
    if db != [] {
      FoundByIdIff(db[1..], t, id, row);
      assert row in db <==> row == db[0] || row in db[1..];
      if row in db[1..] {
        var i :| 0 <= i < |db[1..]| && db[1..][i] == row;
        assert db[i + 1].id != db[0].id;
      }
    }
  }

  /** Exactly one row is found by name exactly when there is exactly one such row. */
  lemma {:induction false} OneFoundIff(db: Database, t: CredentialType, name: string, row: Row)
    ensures FindByName(db, t, name) == [row] <==> IsOnlyNamed(db, t, name, row)
  {
    var rows := FindByName(db, t, name);
    FoundByNameIff(db, t, name, row);
    if rows == [row] {
      forall r | IsNamed(db, t, name, r) ensures r == row {
        FoundByNameIff(db, t, name, r);
      }
    }
    if IsOnlyNamed(db, t, name, row) {
      assert IsNamed(db, t, name, row);
      assert row in rows;
      if |rows| > 1 {
        FoundAreDistinct(db, t, name);
        FoundByNameIff(db, t, name, rows[0]);
        FoundByNameIff(db, t, name, rows[1]);
        assert IsNamed(db, t, name, rows[0]) && IsNamed(db, t, name, rows[1]);
      }
    }
  }

  predicate AllDistinct(rows: seq<Row>) {
    forall i, j :: 0 <= i < j < |rows| ==> rows[i] != rows[j]
  }

  lemma {:induction false} FoundAreDistinct(db: Database, t: CredentialType, name: string)
    ensures AllDistinct(FindByName(db, t, name))
    decreases |db|
  {
    if db != [] {
      FoundAreDistinct(db[1..], t, name);
      var rest := FindByName(db[1..], t, name);
      forall row | row in rest ensures row != db[0] {
        FoundByNameIff(db[1..], t, name, row);
        var i :| 0 <= i < |db[1..]| && db[1..][i] == row;
        assert db[i + 1] == row && db[i + 1].id != db[0].id;
      }
      PrependDistinct(db[0], rest);
      assert FindByName(db, t, name) == [] + rest || FindByName(db, t, name) == [db[0]] + rest;
      assert [] + rest == rest;
    }
  }

  lemma PrependDistinct(row: Row, rest: seq<Row>)
    requires row !in rest && AllDistinct(rest)
    ensures AllDistinct([row] + rest)
  {
  }

  /** A row of the project with this type and name. */
  predicate IsNamed(db: seq<Row>, t: CredentialType, name: string, row: Row) {
    row in db && row.name == name && row.credentialType == t && row.inProject
  }

  ghost predicate IsOnlyNamed(db: seq<Row>, t: CredentialType, name: string, row: Row) {
    IsNamed(db, t, name, row) && forall r :: IsNamed(db, t, name, r) ==> r == row
  }

  lemma {:induction false} FoundById(db: seq<Row>, t: CredentialType, id: Id)
    requires FindById(db, t, id).Some?
    ensures FindById(db, t, id).value.id == id
  {
    if !(db[0].id == id && db[0].credentialType == t) {
      FoundById(db[1..], t, id);
    }
  }

  function Found(row: Row): Reference {
    Details(Some(row.id), row.name)
  }

  /** Old-style references have no id. */
  predicate IsLegacy(r: Reference) {
    r.Legacy? || (r.Details? && r.id.None?)
  }

  predicate HasId(r: Reference) {
    r.Details? && r.id.Some?
  }

  /** A string `s` says the same as `{ id: null, name: s }`. */
  function Normal(r: Reference): Reference {
    if r.Legacy? then Details(None, r.name) else r
  }

  predicate Skipped(e: Entry) {
    !e.safe || e.reference.Missing? || e.reference.GatewayManaged?
  }

  // ---------- without caches ----------

  /** What the database says about one reference on its own. */
  function Resolve(db: seq<Row>, e: Entry): Reference {
    var t := e.credentialType;
    if Skipped(e) then e.reference
    else
      var byName := FindByName(db, t, e.reference.name);
      if IsLegacy(e.reference) then
        if |byName| == 1 then Found(byName[0]) else Normal(e.reference)
      else
        var byId := FindById(db, t, e.reference.id.value);
        if byId.Some? then Found(byId.value)
        else if |byName| == 1 then Found(byName[0])
        else e.reference
  }

  // ---------- with caches ----------

  /** The two caches, and the by-name queries issued for old-style references. */
  datatype Caches = Caches(
    byName: map<(CredentialType, string), Reference>,
    byId: map<(CredentialType, Id), Reference>,
    queries: nat)

  const EMPTY := Caches(map[], map[], 0)

  /** One pass through the body of the inner loop. */
  function Step(db: seq<Row>, e: Entry, c: Caches): (Reference, Caches) {
    var t := e.credentialType;
    if Skipped(e) then (e.reference, c)
    else if IsLegacy(e.reference) then
      var key := (t, e.reference.name);
      if key !in c.byName then
        var rows := FindByName(db, t, e.reference.name);
        var c' := c.(queries := c.queries + 1);
        if |rows| == 1 then (Found(rows[0]), c'.(byName := c.byName[key := Found(rows[0])]))
        else (e.reference, c'.(byName := c.byName[key := Details(None, e.reference.name)]))
      else (c.byName[key], c)
    else
      var key := (t, e.reference.id.value);
      if key !in c.byId then
        var row := FindById(db, t, e.reference.id.value);
        if row.Some? then (Found(row.value), c.(byId := c.byId[key := Found(row.value)]))
        else
          var rows := FindByName(db, t, e.reference.name);
          if |rows| == 1 then (Found(rows[0]), c.(byId := c.byId[(t, rows[0].id) := Found(rows[0])]))
          else (e.reference, c.(byId := c.byId[key := e.reference]))
      else (c.byId[key], c)
  }

  /** The references that the loop writes for a list of entries, and the caches afterwards. */
  function Run(db: seq<Row>, es: seq<Entry>, c: Caches): (r: (seq<Reference>, Caches))
    ensures |r.0| == |es|
  {
    if es == [] then ([], c)
    else
      var (r, c') := Step(db, es[0], c);
      var (rs, c'') := Run(db, es[1..], c');
      ([r] + rs, c'')
  }

  // ---------- when the caches agree with the database ----------

  /** Neither the id nor the name of the reference leads to a row. */
  predicate Unresolvable(db: seq<Row>, e: Entry) {
    !Skipped(e) && HasId(e.reference) &&
    FindById(db, e.credentialType, e.reference.id.value).None? &&
    |FindByName(db, e.credentialType, e.reference.name)| != 1
  }

  predicate SameTypeAndId(a: Entry, b: Entry) {
    !Skipped(a) && !Skipped(b) && HasId(a.reference) && HasId(b.reference) &&
    a.credentialType == b.credentialType && a.reference.id == b.reference.id
  }

  /** References repeating an unresolvable id repeat its name as well. */
  ghost predicate NamesAgree(db: seq<Row>, es: seq<Entry>) {
    forall i, j :: 0 <= i < j < |es| && Unresolvable(db, es[i]) && SameTypeAndId(es[i], es[j]) ==>
      es[i].reference.name == es[j].reference.name
  }

  ghost predicate AllAsResolved(db: seq<Row>, es: seq<Entry>, rs: seq<Reference>) {
    |rs| == |es| && forall i :: 0 <= i < |es| ==> Normal(rs[i]) == Normal(Resolve(db, es[i]))
  }

  function IdKey(e: Entry): (CredentialType, Id)
    requires HasId(e.reference)
  {
    (e.credentialType, e.reference.id.value)
  }

  /** What the loop knows after `seen`, as long as it has answered like the database so far. */
  ghost predicate CachesAgree(db: seq<Row>, seen: seq<Entry>, c: Caches) {
    NamesCached(db, c) && IdsCached(db, seen, c) &&
    forall e :: e in seen && Unresolvable(db, e) ==> IdKey(e) in c.byId && c.byId[IdKey(e)] == e.reference
  }

  ghost predicate NamesCached(db: seq<Row>, c: Caches) {
    forall k :: k in c.byName ==>
      var rows := FindByName(db, k.0, k.1);
      c.byName[k] == if |rows| == 1 then Found(rows[0]) else Details(None, k.1)
  }

  ghost predicate IdsCached(db: seq<Row>, seen: seq<Entry>, c: Caches) {
    forall k :: k in c.byId ==>
      var row := FindById(db, k.0, k.1);
      if row.Some? then c.byId[k] == Found(row.value)
      else exists e :: e in seen && Unresolvable(db, e) && IdKey(e) == k
  }

  /** No unresolvable reference seen before has the id of `e` and another name. */
  ghost predicate AgreesWith(db: seq<Row>, seen: seq<Entry>, e: Entry) {
    forall x :: x in seen && Unresolvable(db, x) && SameTypeAndId(x, e) ==> x.reference.name == e.reference.name
  }

  predicate AsResolved(db: seq<Row>, e: Entry, r: Reference) {
    Normal(r) == Normal(Resolve(db, e))
  }

  lemma StepAgrees(db: Database, seen: seq<Entry>, e: Entry, c: Caches)
    requires CachesAgree(db, seen, c)
    ensures AsResolved(db, e, Step(db, e, c).0) <==> AgreesWith(db, seen, e)
  {
    if !Skipped(e) && HasId(e.reference) && IdKey(e) in c.byId && FindById(db, IdKey(e).0, IdKey(e).1).None? {
      var x :| x in seen && Unresolvable(db, x) && IdKey(x) == IdKey(e);
      assert SameTypeAndId(x, e) && c.byId[IdKey(e)] == x.reference;
      var rows := FindByName(db, e.credentialType, e.reference.name);
      if |rows| == 1 {
        assert rows[0] in rows;
        FoundByName(db, e.credentialType, e.reference.name, rows[0]);
      }
    }
  }

  lemma StepKeepsAgreement(db: Database, seen: seq<Entry>, e: Entry, c: Caches)
    requires CachesAgree(db, seen, c) && AgreesWith(db, seen, e)
    ensures CachesAgree(db, seen + [e], Step(db, e, c).1)
  {
    StepKeepsIds(db, seen, e, c);
    StepKeepsNames(db, e, c);
    forall x | x in seen + [e] && Unresolvable(db, x)
      ensures IdKey(x) in Step(db, e, c).1.byId && Step(db, e, c).1.byId[IdKey(x)] == x.reference
    {
      if x in seen {
        StepKeepsOld(db, e, c, IdKey(x));
      } else {
        assert x == e;
        StepStoresUnresolvable(db, seen, e, c);
      }
    }
  }

  lemma StepKeepsNames(db: seq<Row>, e: Entry, c: Caches)
    requires NamesCached(db, c)
    ensures NamesCached(db, Step(db, e, c).1)
  {
    var c' := Step(db, e, c).1;
    forall k | k in c'.byName
      ensures
        var rows := FindByName(db, k.0, k.1);
        c'.byName[k] == if |rows| == 1 then Found(rows[0]) else Details(None, k.1)
    {
      if k !in c.byName {
        assert k == (e.credentialType, e.reference.name);
      }
    }
  }

  lemma StepKeepsOld(db: Database, e: Entry, c: Caches, k: (CredentialType, Id))
    requires k in c.byId && FindById(db, k.0, k.1).None?
    ensures k in Step(db, e, c).1.byId && Step(db, e, c).1.byId[k] == c.byId[k]
  {
    if HasId(e.reference) {
      FoundByUniqueName(db, e);
    }
  }

  lemma StepStoresUnresolvable(db: Database, seen: seq<Entry>, e: Entry, c: Caches)
    requires Unresolvable(db, e) && CachesAgree(db, seen, c) && AgreesWith(db, seen, e)
    ensures IdKey(e) in Step(db, e, c).1.byId && Step(db, e, c).1.byId[IdKey(e)] == e.reference
  {
    StepAgrees(db, seen, e, c);
    assert Resolve(db, e) == e.reference;
  }

  lemma StepKeepsIds(db: Database, seen: seq<Entry>, e: Entry, c: Caches)
    requires IdsCached(db, seen, c)
    ensures IdsCached(db, seen + [e], Step(db, e, c).1)
  {
    var c' := Step(db, e, c).1;
    assert forall x :: x in seen + [e] <==> x in seen || x == e;
    forall k | k in c'.byId
      ensures
        var row := FindById(db, k.0, k.1);
        if row.Some? then c'.byId[k] == Found(row.value)
        else exists x :: x in seen + [e] && Unresolvable(db, x) && IdKey(x) == k
    {
      if HasId(e.reference) {
        FoundByUniqueName(db, e);
      }
      if FindById(db, k.0, k.1).None? {
        if k in c.byId {
          var x :| x in seen && Unresolvable(db, x) && IdKey(x) == k;
          assert x in seen + [e] && Unresolvable(db, x);
        } else {
          assert e in seen + [e] && Unresolvable(db, e);
        }
      }
    }
  }

  lemma FoundByUniqueName(db: Database, e: Entry)
    requires HasId(e.reference)
    ensures
      var rows := FindByName(db, e.credentialType, e.reference.name);
      |rows| == 1 ==> FindById(db, e.credentialType, rows[0].id) == Some(rows[0]) && rows[0].name == e.reference.name
  {
    var rows := FindByName(db, e.credentialType, e.reference.name);
    if |rows| == 1 {
      assert rows[0] in rows;
      FoundByName(db, e.credentialType, e.reference.name, rows[0]);
    }
  }

  /** From the k-th reference on, none disagrees with an unresolvable one before it. */
  ghost predicate AgreeFrom(db: seq<Row>, es: seq<Entry>, k: nat) {
    forall i :: k <= i < |es| ==> AgreesWith(db, es[..i], es[i])
  }

  lemma {:induction false} RunAgrees(db: Database, es: seq<Entry>, k: nat, c: Caches)
    requires k <= |es| && CachesAgree(db, es[..k], c)
    ensures AllAsResolved(db, es[k..], Run(db, es[k..], c).0) <==> AgreeFrom(db, es, k)
    decreases |es| - k
  {
    if k < |es| {
      var rest, next := es[k..], Step(db, es[k], c).1;
      HeadResolves(db, es[..k], rest, c);
      assert rest[1..] == es[k + 1..];
      if AgreesWith(db, es[..k], es[k]) {
        StepKeepsAgreement(db, es[..k], es[k], c);
        assert es[..k] + [es[k]] == es[..k + 1];
        RunAgrees(db, es, k + 1, next);
      }
    }
  }

  lemma HeadResolves(db: Database, seen: seq<Entry>, es: seq<Entry>, c: Caches)
    requires es != [] && CachesAgree(db, seen, c)
    ensures AllAsResolved(db, es, Run(db, es, c).0)
       <==> AgreesWith(db, seen, es[0]) && AllAsResolved(db, es[1..], Run(db, es[1..], Step(db, es[0], c).1).0)
  {
    RunHead(db, es, c);
    HeadAndTail(db, es, Run(db, es, c).0);
    StepAgrees(db, seen, es[0], c);
  }

  lemma AgreeFromTheStart(db: seq<Row>, es: seq<Entry>)
    ensures AgreeFrom(db, es, 0) <==> NamesAgree(db, es)
  {
    if AgreeFrom(db, es, 0) {
      forall i, j | 0 <= i < j < |es| && Unresolvable(db, es[i]) && SameTypeAndId(es[i], es[j])
        ensures es[i].reference.name == es[j].reference.name
      {
        assert es[..j][i] == es[i] && es[i] in es[..j] && AgreesWith(db, es[..j], es[j]);
      }
    }
    if NamesAgree(db, es) {
      forall j, x | 0 <= j < |es| && x in es[..j] && Unresolvable(db, x) && SameTypeAndId(x, es[j])
        ensures x.reference.name == es[j].reference.name
      {
        var i :| 0 <= i < j && es[..j][i] == x;
        assert es[i] == x;
      }
    }
  }

  lemma RunHead(db: seq<Row>, es: seq<Entry>, c: Caches)
    requires es != []
    ensures
      var (all, first) := (Run(db, es, c).0, Step(db, es[0], c));
      |all| == |es| && all[0] == first.0 && all[1..] == Run(db, es[1..], first.1).0
  {
  }

  lemma HeadAndTail(db: seq<Row>, es: seq<Entry>, rs: seq<Reference>)
    requires |es| == |rs| > 0
    ensures AllAsResolved(db, es, rs) <==> AsResolved(db, es[0], rs[0]) && AllAsResolved(db, es[1..], rs[1..])
  {
    if AsResolved(db, es[0], rs[0]) && AllAsResolved(db, es[1..], rs[1..]) {
      forall i | 0 <= i < |es|
        ensures Normal(rs[i]) == Normal(Resolve(db, es[i]))
      {
        if i > 0 {
          assert es[1..][i - 1] == es[i] && rs[1..][i - 1] == rs[i];
        }
      }
    }
    if AllAsResolved(db, es, rs) {
      forall i | 0 <= i < |es[1..]|
        ensures Normal(rs[1..][i]) == Normal(Resolve(db, es[1..][i]))
      {
        assert es[1..][i] == es[i + 1] && rs[1..][i] == rs[i + 1];
      }
    }
  }

  /**
   The cached loop gives every reference what the database says about it exactly when
   no unresolvable id is repeated under another name.
   */
  lemma CachedLoopIsDirectIff(db: Database, es: seq<Entry>)
    ensures AllAsResolved(db, es, Run(db, es, EMPTY).0) <==> NamesAgree(db, es)
  {
    RunAgrees(db, es, 0, EMPTY);
    AgreeFromTheStart(db, es);
    assert es[0..] == es;
  }

  // ---------- how often the database is asked by name ----------

  function LegacyPair(e: Entry): set<(CredentialType, string)> {
    if !Skipped(e) && IsLegacy(e.reference) then {(e.credentialType, e.reference.name)} else {}
  }

  /** The distinct (type, name) pairs of the old-style references. */
  function LegacyPairs(es: seq<Entry>): set<(CredentialType, string)> {
    if es == [] then {} else LegacyPair(es[0]) + LegacyPairs(es[1..])
  }

  lemma StepQueries(db: seq<Row>, e: Entry, c: Caches)
    ensures
      var c', keys := Step(db, e, c).1, c.byName.Keys + LegacyPair(e);
      c'.byName.Keys == keys && c'.queries - c.queries == |keys| - |c.byName.Keys|
  {
    var known := c.byName.Keys;
    if !Skipped(e) && IsLegacy(e.reference) {
      StepAsks(db, e, c);
      GrowByOne(known, (e.credentialType, e.reference.name));
    } else {
      assert known + LegacyPair(e) == known;
    }
  }

  lemma StepAsks(db: seq<Row>, e: Entry, c: Caches)
    requires !Skipped(e) && IsLegacy(e.reference)
    ensures
      var c', key := Step(db, e, c).1, (e.credentialType, e.reference.name);
      c'.byName.Keys == c.byName.Keys + {key} &&
      c'.queries == c.queries + (if key in c.byName.Keys then 0 else 1)
  {
  }

  lemma GrowByOne<T>(s: set<T>, x: T)
    ensures |s + {x}| == |s| + (if x in s then 0 else 1)
  {
    if x in s {
      assert s + {x} == s;
    }
  }

  lemma {:induction false} QueriesPerPair(db: seq<Row>, es: seq<Entry>, c: Caches)
    ensures
      var c', keys := Run(db, es, c).1, c.byName.Keys + LegacyPairs(es);
      c'.byName.Keys == keys && c'.queries - c.queries == |keys| - |c.byName.Keys|
    decreases |es|
  {
    if es == [] {
      assert c.byName.Keys + LegacyPairs(es) == c.byName.Keys;
    } else {
      StepQueries(db, es[0], c);
      var c' := Step(db, es[0], c).1;
      QueriesPerPair(db, es[1..], c');
      assert c'.byName.Keys + LegacyPairs(es[1..]) == c.byName.Keys + LegacyPairs(es);
    }
  }

  /** Old-style references cost one query per distinct pair, however many nodes use it. */
  lemma OneQueryPerPair(db: seq<Row>, es: seq<Entry>)
    ensures Run(db, es, EMPTY).1.queries == |LegacyPairs(es)|
  {
    QueriesPerPair(db, es, EMPTY);
    assert {} + LegacyPairs(es) == LegacyPairs(es);
  }

  // ---------- nodes ----------

  function WithReferences(es: seq<Entry>, rs: seq<Reference>): seq<Entry>
    requires |es| == |rs|
  {
    seq(|es|, i requires 0 <= i < |es| => es[i].(reference := rs[i]))
  }

  /** The outer loop: disabled nodes are passed over. */
  function RunNodes(db: seq<Row>, nodes: seq<Node>, c: Caches): (r: (seq<Node>, Caches))
    ensures |r.0| == |nodes|
  {
    if nodes == [] then ([], c)
    else
      var (first, c') := RunNode(db, nodes[0], c);
      var (rest, c'') := RunNodes(db, nodes[1..], c');
      ([first] + rest, c'')
  }

  function RunNode(db: seq<Row>, node: Node, c: Caches): (Node, Caches) {
    if node.disabled then (node, c)
    else
      var (rs, c') := Run(db, node.credentials, c);
      (node.(credentials := WithReferences(node.credentials, rs)), c')
  }

  /** The entries that the loop looks at, in its order. */
  function Live(nodes: seq<Node>): seq<Entry> {
    if nodes == [] then []
    else (if nodes[0].disabled then [] else nodes[0].credentials) + Live(nodes[1..])
  }

  /** The node as the database alone would repair it. */
  ghost predicate NodeAsResolved(db: seq<Row>, before: Node, after: Node) {
    if before.disabled then after == before
    else
      after.disabled == before.disabled && |after.credentials| == |before.credentials| &&
      forall i :: 0 <= i < |before.credentials| ==>
        after.credentials[i] == before.credentials[i].(reference := after.credentials[i].reference) &&
        AsResolved(db, before.credentials[i], after.credentials[i].reference)
  }

  ghost predicate NodesAsResolved(db: seq<Row>, before: seq<Node>, after: seq<Node>) {
    |before| == |after| && forall n :: 0 <= n < |before| ==> NodeAsResolved(db, before[n], after[n])
  }

  lemma {:induction false} RunAppend(db: seq<Row>, a: seq<Entry>, b: seq<Entry>, c: Caches)
    ensures
      var (ra, c') := Run(db, a, c);
      var (rb, c'') := Run(db, b, c');
      Run(db, a + b, c) == (ra + rb, c'')
    decreases |a|
  {
    if a == [] {
      assert a + b == b && [] + Run(db, b, c).0 == Run(db, b, c).0;
    } else {
      assert (a + b)[1..] == a[1..] + b;
      var (r, c1) := Step(db, a[0], c);
      RunAppend(db, a[1..], b, c1);
      var (ra, c') := Run(db, a[1..], c1);
      assert ([r] + ra) + Run(db, b, c').0 == [r] + (ra + Run(db, b, c').0);
    }
  }

  lemma SplitAsResolved(db: seq<Row>, a: seq<Entry>, b: seq<Entry>, ra: seq<Reference>, rb: seq<Reference>)
    requires |a| == |ra| && |b| == |rb|
    ensures AllAsResolved(db, a + b, ra + rb) <==> AllAsResolved(db, a, ra) && AllAsResolved(db, b, rb)
  {
    var es, rs := a + b, ra + rb;
    if AllAsResolved(db, es, rs) {
      forall i | 0 <= i < |a| ensures Normal(ra[i]) == Normal(Resolve(db, a[i])) {
        assert es[i] == a[i] && rs[i] == ra[i];
      }
      forall i | 0 <= i < |b| ensures Normal(rb[i]) == Normal(Resolve(db, b[i])) {
        assert es[|a| + i] == b[i] && rs[|a| + i] == rb[i];
      }
    }
  }

  lemma {:induction false} NodesMatchEntries(db: seq<Row>, nodes: seq<Node>, c: Caches)
    ensures NodesAsResolved(db, nodes, RunNodes(db, nodes, c).0)
       <==> AllAsResolved(db, Live(nodes), Run(db, Live(nodes), c).0)
    ensures RunNodes(db, nodes, c).1 == Run(db, Live(nodes), c).1
    decreases |nodes|
  {
    if nodes != [] {
      var node := nodes[0];
      var own := if node.disabled then [] else node.credentials;
      var (ra, c') := Run(db, own, c);
      var rest := Live(nodes[1..]);
      RunAppend(db, own, rest, c);
      SplitAsResolved(db, own, rest, ra, Run(db, rest, c').0);
      NodesMatchEntries(db, nodes[1..], c');
      var (first, _) := RunNode(db, node, c);
      assert NodeAsResolved(db, node, first) <==> AllAsResolved(db, own, ra);
      NodesHeadTail(db, nodes, RunNodes(db, nodes, c).0);
    }
  }

  lemma NodesHeadTail(db: seq<Row>, before: seq<Node>, after: seq<Node>)
    requires |before| == |after| > 0
    ensures NodesAsResolved(db, before, after)
       <==> NodeAsResolved(db, before[0], after[0]) && NodesAsResolved(db, before[1..], after[1..])
  {
    if NodeAsResolved(db, before[0], after[0]) && NodesAsResolved(db, before[1..], after[1..]) {
      forall n | 0 <= n < |before| ensures NodeAsResolved(db, before[n], after[n]) {
        if n > 0 {
          assert before[1..][n - 1] == before[n] && after[1..][n - 1] == after[n];
        }
      }
    }
    if NodesAsResolved(db, before, after) {
      forall n | 0 <= n < |before[1..]| ensures NodeAsResolved(db, before[1..][n], after[1..][n]) {
        assert before[1..][n] == before[n + 1] && after[1..][n] == after[n + 1];
      }
    }
  }

  /**
   Every node ends up as the database alone would repair it, exactly when no
   unresolvable id is repeated under another name.
   */
  lemma NodesRepairedDirectlyIff(db: Database, nodes: seq<Node>)
    ensures NodesAsResolved(db, nodes, RunNodes(db, nodes, EMPTY).0) <==> NamesAgree(db, Live(nodes))
  {
    NodesMatchEntries(db, nodes, EMPTY);
    CachedLoopIsDirectIff(db, Live(nodes));
  }

  // ---------- what a repaired reference is ----------

  /** The row has the type and the id of the reference. */
  predicate HasItsId(db: seq<Row>, e: Entry, row: Row) {
    row in db && row.credentialType == e.credentialType && e.reference.Details? && e.reference.id == Some(row.id)
  }

  /** The reference can only mean this row: by its id, or else by a name that one row of the project has. */
  ghost predicate Means(db: seq<Row>, e: Entry, row: Row) {
    e.safe && (e.reference.Legacy? || e.reference.Details?) &&
    (HasItsId(db, e, row) ||
     ((forall r :: !HasItsId(db, e, r)) && IsOnlyNamed(db, e.credentialType, e.reference.name, row)))
  }

  /** A reference that means a row carries the row's id and name; any other stays, as a string or in the new form. */
  ghost predicate Repaired(db: seq<Row>, before: Entry, after: Entry) {
    after.credentialType == before.credentialType && after.safe == before.safe &&
    (forall row :: Means(db, before, row) ==> after.reference == Details(Some(row.id), row.name)) &&
    ((forall row :: !Means(db, before, row)) ==>
       after.reference == before.reference ||
       (before.safe && before.reference.Legacy? && after.reference == Details(None, before.reference.name)))
  }

  ghost predicate AllRepaired(db: seq<Row>, before: seq<Node>, after: seq<Node>) {
    |after| == |before| &&
    forall n :: 0 <= n < |before| ==>
      if before[n].disabled then after[n] == before[n]
      else
        !after[n].disabled && |after[n].credentials| == |before[n].credentials| &&
        forall i :: 0 <= i < |before[n].credentials| ==>
          Repaired(db, before[n].credentials[i], after[n].credentials[i])
  }

  lemma ResolveMeans(db: Database, e: Entry, row: Row)
    requires Means(db, e, row)
    ensures Resolve(db, e) == Details(Some(row.id), row.name)
  {
    if HasItsId(db, e, row) {
      FoundByIdIff(db, e.credentialType, row.id, row);
    } else {
      OneFoundIff(db, e.credentialType, e.reference.name, row);
      if HasId(e.reference) && FindById(db, e.credentialType, e.reference.id.value).Some? {
        var found := FindById(db, e.credentialType, e.reference.id.value).value;
        FoundByIdIff(db, e.credentialType, e.reference.id.value, found);
        assert HasItsId(db, e, found);
      }
    }
  }

  /** Whatever is found is what the reference means. */
  lemma FoundIsMeant(db: Database, e: Entry) returns (row: Row)
    requires !Skipped(e)
    requires (HasId(e.reference) && FindById(db, e.credentialType, e.reference.id.value).Some?) ||
             |FindByName(db, e.credentialType, e.reference.name)| == 1
    ensures Means(db, e, row)
  {
    var t, rows := e.credentialType, FindByName(db, e.credentialType, e.reference.name);
    if HasId(e.reference) && FindById(db, t, e.reference.id.value).Some? {
      row := FindById(db, t, e.reference.id.value).value;
      FoundByIdIff(db, t, e.reference.id.value, row);
      assert HasItsId(db, e, row);
    } else {
      row := rows[0];
      assert rows == [row];
      OneFoundIff(db, t, e.reference.name, row);
      forall r ensures !HasItsId(db, e, r) {
        if HasItsId(db, e, r) {
          FoundByIdIff(db, t, r.id, r);
        }
      }
    }
  }

  lemma ResolveMeansNothing(db: Database, e: Entry)
    requires forall row :: !Means(db, e, row)
    ensures Resolve(db, e) == if Skipped(e) then e.reference else Normal(e.reference)
  {
    if !Skipped(e) && Resolve(db, e) != Normal(e.reference) {
      var row := FoundIsMeant(db, e);
      assert false;
    }
  }

  /** Nothing that is passed over changes, and no reference becomes a string. */
  predicate KeepsForm(e: Entry, r: Reference) {
    (Skipped(e) ==> r == e.reference) && (r.Legacy? ==> r == e.reference)
  }

  predicate NoStrings(c: Caches) {
    (forall k :: k in c.byName ==> c.byName[k].Details?) && (forall k :: k in c.byId ==> c.byId[k].Details?)
  }

  lemma StepKeepsForm(db: seq<Row>, e: Entry, c: Caches)
    requires NoStrings(c)
    ensures KeepsForm(e, Step(db, e, c).0) && NoStrings(Step(db, e, c).1)
  {
  }

  lemma {:induction false} RunKeepsForm(db: seq<Row>, es: seq<Entry>, c: Caches)
    requires NoStrings(c)
    ensures NoStrings(Run(db, es, c).1)
    ensures forall i :: 0 <= i < |es| ==> KeepsForm(es[i], Run(db, es, c).0[i])
    decreases |es|
  {
    if es != [] {
      StepKeepsForm(db, es[0], c);
      RunKeepsForm(db, es[1..], Step(db, es[0], c).1);
      RunHead(db, es, c);
      forall i | 0 <= i < |es| ensures KeepsForm(es[i], Run(db, es, c).0[i]) {
        if i > 0 {
          assert es[1..][i - 1] == es[i] && Run(db, es, c).0[1..][i - 1] == Run(db, es, c).0[i];
        }
      }
    }
  }

  predicate NodeKeepsForm(before: Node, after: Node) {
    |after.credentials| == |before.credentials| &&
    forall i :: 0 <= i < |before.credentials| && !before.disabled ==>
      KeepsForm(before.credentials[i], after.credentials[i].reference)
  }

  lemma {:induction false} NodesKeepForm(db: seq<Row>, nodes: seq<Node>, c: Caches)
    requires NoStrings(c)
    ensures
      var after := RunNodes(db, nodes, c).0;
      |after| == |nodes| && forall n :: 0 <= n < |nodes| ==> NodeKeepsForm(nodes[n], after[n])
    decreases |nodes|
  {
    if nodes != [] {
      var (node, c') := RunNode(db, nodes[0], c);
      if !nodes[0].disabled {
        RunKeepsForm(db, nodes[0].credentials, c);
      }
      NodesKeepForm(db, nodes[1..], c');
      var after := RunNodes(db, nodes, c).0;
      assert after[1..] == RunNodes(db, nodes[1..], c').0;
      forall n | 0 <= n < |nodes| ensures NodeKeepsForm(nodes[n], after[n]) {
        if n > 0 {
          assert nodes[1..][n - 1] == nodes[n] && after[1..][n - 1] == after[n];
        }
      }
    }
  }

  lemma ResolvedIsRepaired(db: Database, e: Entry, r: Reference)
    requires AsResolved(db, e, r) && KeepsForm(e, r)
    ensures Repaired(db, e, e.(reference := r))
  {
    forall row | Means(db, e, row) ensures r == Details(Some(row.id), row.name) {
      ResolveMeans(db, e, row);
    }
    if forall row :: !Means(db, e, row) {
      ResolveMeansNothing(db, e);
    }
  }

  /** On references that agree in their names, every node is repaired as the rows say. */
  lemma AgreeingNodesAreRepaired(db: Database, nodes: seq<Node>)
    requires NamesAgree(db, Live(nodes))
    ensures AllRepaired(db, nodes, RunNodes(db, nodes, EMPTY).0)
  {
    var after := RunNodes(db, nodes, EMPTY).0;
    NodesRepairedDirectlyIff(db, nodes);
    NodesKeepForm(db, nodes, EMPTY);
    forall n, i | 0 <= n < |nodes| && !nodes[n].disabled && 0 <= i < |nodes[n].credentials|
      ensures Repaired(db, nodes[n].credentials[i], after[n].credentials[i])
    {
      assert NodeAsResolved(db, nodes[n], after[n]) && NodeKeepsForm(nodes[n], after[n]);
      ResolvedIsRepaired(db, nodes[n].credentials[i], after[n].credentials[i].reference);
    }
    forall n | 0 <= n < |nodes| ensures NodeAsResolved(db, nodes[n], after[n]) {
    }
  }

  lemma RunUnfold(db: seq<Row>, es: seq<Entry>, i: nat, rs: seq<Reference>, c: Caches)
    requires i < |es|
    ensures
      var (r, c') := Step(db, es[i], c);
      rs + Run(db, es[i..], c).0 == (rs + [r]) + Run(db, es[i + 1..], c').0 &&
      Run(db, es[i..], c).1 == Run(db, es[i + 1..], c').1
  {
    assert es[i..][0] == es[i] && es[i..][1..] == es[i + 1..];
  }

  lemma RunNodesUnfold(db: seq<Row>, nodes: seq<Node>, n: nat, done: seq<Node>, c: Caches)
    requires n < |nodes|
    ensures
      var (node, c') := RunNode(db, nodes[n], c);
      done + RunNodes(db, nodes[n..], c).0 == (done + [node]) + RunNodes(db, nodes[n + 1..], c').0 &&
      RunNodes(db, nodes[n..], c).1 == RunNodes(db, nodes[n + 1..], c').1
  {
    assert nodes[n..][0] == nodes[n] && nodes[n..][1..] == nodes[n + 1..];
  }

  /** The source's loops; `queries` counts the by-name queries for old-style references. */
  method ReplaceInvalidCredentials(nodes: array<Node>, db: Database) returns (queries: nat)
    modifies nodes
    ensures nodes[..] == RunNodes(db, old(nodes[..]), EMPTY).0
    ensures NodesAsResolved(db, old(nodes[..]), nodes[..]) <==> NamesAgree(db, Live(old(nodes[..])))
    ensures NamesAgree(db, Live(old(nodes[..]))) ==> AllRepaired(db, old(nodes[..]), nodes[..])
    ensures queries == |LegacyPairs(Live(old(nodes[..])))|
  {
    var caches := EMPTY;
    ghost var start := nodes[..];
    var n := 0;
    while n < nodes.Length
      invariant 0 <= n <= nodes.Length && nodes[n..] == start[n..]
      invariant nodes[..n] + RunNodes(db, start[n..], caches).0 == RunNodes(db, start, EMPTY).0
      invariant RunNodes(db, start[n..], caches).1 == RunNodes(db, start, EMPTY).1
    {
      assert nodes[n] == start[n] by {
        assert nodes[n..][0] == start[n..][0];
      }
      RunNodesUnfold(db, start, n, nodes[..n], caches);
      ghost var done := nodes[..n];
      if !nodes[n].disabled {
        var rs: seq<Reference>;
        rs, caches := ReplaceInNode(nodes[n].credentials, db, caches);
        nodes[n] := nodes[n].(credentials := WithReferences(nodes[n].credentials, rs));
      }
      n := n + 1;
      assert nodes[..n] == done + [nodes[n - 1]];
    }
    assert nodes[..] == nodes[..n];
    NodesMatchEntries(db, start, EMPTY);
    NodesRepairedDirectlyIff(db, start);
    OneQueryPerPair(db, Live(start));
    if NamesAgree(db, Live(start)) {
      AgreeingNodesAreRepaired(db, start);
    }
    return caches.queries;
  }

  /** The inner loop, over the credentials of one node. */
  method ReplaceInNode(es: seq<Entry>, db: seq<Row>, caches: Caches) returns (rs: seq<Reference>, after: Caches)
    ensures (rs, after) == Run(db, es, caches)
  {
    var byName, byId, queries := caches.byName, caches.byId, caches.queries;
    rs := [];
    var i := 0;
    while i < |es|
      invariant 0 <= i <= |es|
      invariant rs + Run(db, es[i..], Caches(byName, byId, queries)).0 == Run(db, es, caches).0
      invariant Run(db, es[i..], Caches(byName, byId, queries)).1 == Run(db, es, caches).1
    {
      ghost var before := Caches(byName, byId, queries);
      var r := es[i].reference;
      var t := es[i].credentialType;
      if !Skipped(es[i]) {
        if IsLegacy(r) {
          var key := (t, r.name);
          if key !in byName {
            var rows := FindByName(db, t, r.name);
            queries := queries + 1;
            if |rows| == 1 {
              byName := byName[key := Found(rows[0])];
              r := byName[key];
            } else {
              byName := byName[key := Details(None, r.name)];
            }
          } else {
            r := byName[key];
          }
        } else {
          var key := (t, r.id.value);
          if key !in byId {
            var row := FindById(db, t, r.id.value);
            if row.Some? {
              byId := byId[key := Found(row.value)];
              r := byId[key];
            } else {
              var rows := FindByName(db, t, r.name);
              if |rows| == 1 {
                byId := byId[(t, rows[0].id) := Found(rows[0])];
                r := Found(rows[0]);
              } else {
                byId := byId[key := r];
              }
            }
          } else {
            r := byId[key];
          }
        }
      }
      assert (r, Caches(byName, byId, queries)) == Step(db, es[i], before);
      RunUnfold(db, es, i, rs, before);
      rs := rs + [r];
      i := i + 1;
    }
    after := Caches(byName, byId, queries);
    assert es[i..] == [] && rs + [] == rs;
  }
}
