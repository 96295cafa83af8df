/**
  The guard in front of a cache that holds only labelled objects
  (pkg/controller/cache.go, pkg/controller/indexes.go).
*/
module ScopedCache {
  import opened Prelude

  datatype Operator =
    | Equals | DoubleEquals | In | NotEquals | NotIn | Exists | DoesNotExist | GreaterThan | LessThan

  /** A label or field requirement; operators that take one value find it as the only member. */
  datatype Requirement = Requirement(key: string, op: Operator, values: set<string>)

  /** `Nothing` selects no object; it has no requirements to show. */
  datatype Selector = Nothing | All(requirements: seq<Requirement>)

  datatype Query = Query(
    namespace: Option<string>, fields: Option<seq<Requirement>>, labels: Option<Selector>, limit: nat)

  /** `numbers` gives the labels whose value parses as an integer; `indexed` the other field indexes. */
  datatype Object = Object(
    name: string, namespace: string, labels: map<string, string>, numbers: map<string, int>,
    indexed: map<string, set<string>>)

  datatype Scope = Scope(requiredLabel: string, scopedIndexes: seq<string>)

  // ---- What a query selects ----

  /** labels.Requirement.Matches; `bound` is the parsed value of a comparison. */
  predicate LabelMatches(r: Requirement, o: Object, bound: Option<int>) {
    match r.op
    case Equals => r.key in o.labels && o.labels[r.key] in r.values
    case DoubleEquals => r.key in o.labels && o.labels[r.key] in r.values
    case In => r.key in o.labels && o.labels[r.key] in r.values
    case NotEquals => r.key !in o.labels || o.labels[r.key] !in r.values
    case NotIn => r.key !in o.labels || o.labels[r.key] !in r.values
    case Exists => r.key in o.labels
    case DoesNotExist => r.key !in o.labels
    case GreaterThan => r.key in o.labels && r.key in o.numbers && bound.Some? && o.numbers[r.key] > bound.value
    case LessThan => r.key in o.labels && r.key in o.numbers && bound.Some? && o.numbers[r.key] < bound.value
  }

  /** How the values of comparisons parse. */
  type Bounds = map<Requirement, int>

  function Bound(bounds: Bounds, r: Requirement): Option<int> { if r in bounds then Some(bounds[r]) else None }

  /** The index entries of an object. A scoped index holds the value of the required label. */
  function IndexValues(scope: Scope, o: Object, field: string): set<string> {
    if field in scope.scopedIndexes then
      if scope.requiredLabel in o.labels then {o.labels[scope.requiredLabel]} else {}
    else if field in o.indexed then o.indexed[field] else {}
  }

  predicate FieldMatches(scope: Scope, r: Requirement, o: Object) {
    if r.op == Equals || r.op == DoubleEquals then IndexValues(scope, o, r.key) * r.values != {}
    else IndexValues(scope, o, r.key) * r.values == {}
  }

  predicate Selects(scope: Scope, bounds: Bounds, q: Query, o: Object) {
    && (q.namespace.Some? ==> o.namespace == q.namespace.value)
    && (q.fields.Some? ==> forall i :: 0 <= i < |q.fields.value| ==> FieldMatches(scope, q.fields.value[i], o))
    && (q.labels.Some? ==> q.labels.value.All?)
    && (q.labels.Some? && q.labels.value.All? ==>
          var rs := q.labels.value.requirements;
          forall i :: 0 <= i < |rs| ==> LabelMatches(rs[i], o, Bound(bounds, rs[i])))
  }

  function Matches(scope: Scope, bounds: Bounds, q: Query, store: seq<Object>): seq<Object> {
    if store == [] then []
    else (if Selects(scope, bounds, q, store[0]) then [store[0]] else []) + Matches(scope, bounds, q, store[1..])
  }

  /** A List: the matches in order, as many as the limit allows; 0 is no limit. */
  function List(scope: Scope, bounds: Bounds, q: Query, store: seq<Object>): seq<Object> {
    var found := Matches(scope, bounds, q, store);
    if 0 < q.limit < |found| then found[..q.limit] else found
  }

  /** The objects the cache holds: those that carry the label. */
  function Cached(scope: Scope, store: seq<Object>): seq<Object> {
    if store == [] then []
    else (if scope.requiredLabel in store[0].labels then [store[0]] else []) + Cached(scope, store[1..])
  }

  // ---- The guard ----

  predicate IsEquality(op: Operator) { op == Equals || op == DoubleEquals }

  predicate Demands(op: Operator) { IsEquality(op) || op == In || op == Exists }

  predicate ByIndex(scope: Scope, q: Query) {
    q.fields.Some? && exists i :: 0 <= i < |q.fields.value| && ScopedField(scope, q.fields.value[i])
  }

  predicate ScopedField(scope: Scope, r: Requirement) { r.key in scope.scopedIndexes && IsEquality(r.op) }

  predicate DemandsLabel(scope: Scope, r: Requirement) { r.key == scope.requiredLabel && Demands(r.op) }

  predicate ByLabel(scope: Scope, q: Query) {
    && q.labels.Some? && q.labels.value.All?
    && exists i :: 0 <= i < |q.labels.value.requirements| && DemandsLabel(scope, q.labels.value.requirements[i])
  }

  /** allows. */
  method Allows(scope: Scope, q: Query) returns (allowed: bool)
    ensures allowed <==> ByIndex(scope, q) || ByLabel(scope, q)
  {
    if q.fields.Some? {
      var reqs := q.fields.value;
      for i := 0 to |reqs|
        invariant forall k :: 0 <= k < i ==> !ScopedField(scope, reqs[k])
      {
        for j := 0 to |scope.scopedIndexes|
          invariant forall k :: 0 <= k < j ==> !(scope.scopedIndexes[k] == reqs[i].key && IsEquality(reqs[i].op))
        {
          if reqs[i].key == scope.scopedIndexes[j] && IsEquality(reqs[i].op) {
            assert ScopedField(scope, reqs[i]);
            return true;
          }
        }
      }
    }
    if q.labels.Some? {
      if q.labels.value.Nothing? {
        return false;
      }
      var reqs := q.labels.value.requirements;
      for i := 0 to |reqs|
        invariant forall k :: 0 <= k < i ==> !DemandsLabel(scope, reqs[k])
      {
        if reqs[i].key != scope.requiredLabel {
          continue;
        }
        if Demands(reqs[i].op) {
          assert DemandsLabel(scope, reqs[i]);
          return true;
        }
      }
    }
    return false;
  }

  ghost predicate Allowed(scope: Scope, q: Query) { ByIndex(scope, q) || ByLabel(scope, q) }

  // ---- A cached List is a full List ----

  /** Listing the cached objects gives what listing all objects gives, in every store. */
  ghost predicate Complete(scope: Scope, bounds: Bounds, q: Query) {
    forall store: seq<Object> :: List(scope, bounds, q, Cached(scope, store)) == List(scope, bounds, q, store)
  }

  ghost predicate NoUnlabelledMatch(scope: Scope, bounds: Bounds, q: Query) {
    forall o: Object :: Selects(scope, bounds, q, o) ==> scope.requiredLabel in o.labels
  }

  lemma AllowedSelectsLabelled(scope: Scope, bounds: Bounds, q: Query)
    requires Allowed(scope, q)
    ensures NoUnlabelledMatch(scope, bounds, q)
  {
  }

  lemma {:induction false} MatchesCached(scope: Scope, bounds: Bounds, q: Query, store: seq<Object>)
    requires NoUnlabelledMatch(scope, bounds, q)
    ensures Matches(scope, bounds, q, Cached(scope, store)) == Matches(scope, bounds, q, store)
  {
    hide Selects;
    if store != [] {
      MatchesCached(scope, bounds, q, store[1..]);
      if scope.requiredLabel in store[0].labels {
        var c := Cached(scope, store);
        assert c[0] == store[0] && c[1..] == Cached(scope, store[1..]);
      } else {
        assert Cached(scope, store) == Cached(scope, store[1..]);
      }
    }
  }

  /** A cached List is complete exactly when the query selects labelled objects only. */
  lemma CompleteIff(scope: Scope, bounds: Bounds, q: Query)
    ensures Complete(scope, bounds, q) <==> NoUnlabelledMatch(scope, bounds, q)
  {
    if NoUnlabelledMatch(scope, bounds, q) {
      forall store: seq<Object>
        ensures List(scope, bounds, q, Cached(scope, store)) == List(scope, bounds, q, store)
      {
        MatchesCached(scope, bounds, q, store);
      }
    } else {
      var o :| Selects(scope, bounds, q, o) && scope.requiredLabel !in o.labels;
      Unseen(scope, bounds, q, o);
    }
  }

  lemma Unseen(scope: Scope, bounds: Bounds, q: Query, o: Object)
    requires Selects(scope, bounds, q, o) && scope.requiredLabel !in o.labels
    ensures List(scope, bounds, q, Cached(scope, [o])) != List(scope, bounds, q, [o])
  {
  }

  /** Whatever the guard allows, the cache answers as the full store would. */
  lemma AllowedIsComplete(scope: Scope, bounds: Bounds, q: Query)
    requires Allowed(scope, q)
    ensures Complete(scope, bounds, q)
  {
    AllowedSelectsLabelled(scope, bounds, q);
    CompleteIff(scope, bounds, q);
  }

  // ---- The guard refuses no more than it must ----

  /** The query has no comparison on the required label. */
  predicate Plain(scope: Scope, q: Query) {
    q.labels.Some? && q.labels.value.All? ==>
      var rs := q.labels.value.requirements;
      forall i :: 0 <= i < |rs| && rs[i].key == scope.requiredLabel ==>
        rs[i].op != GreaterThan && rs[i].op != LessThan
  }

  function Unlabelled(scope: Scope, o: Object): Object { o.(labels := o.labels - {scope.requiredLabel}) }

  /** For such a query, if it selects anything at all, the guard is exact. */
  lemma GuardIsExact(scope: Scope, bounds: Bounds, q: Query, o: Object)
    requires Plain(scope, q) && Selects(scope, bounds, q, o)
    ensures Allowed(scope, q) <==> Complete(scope, bounds, q)
  {
    if Allowed(scope, q) {
      AllowedIsComplete(scope, bounds, q);
    } else {
      var u := Unlabelled(scope, o);
      assert Selects(scope, bounds, q, u);
      CompleteIff(scope, bounds, q);
    }
  }

  /** A comparison on the label is complete and refused all the same. */
  lemma ComparisonIsRefused(scope: Scope, bounds: Bounds)
    ensures var q := Query(None, None, Some(All([Requirement(scope.requiredLabel, GreaterThan, {"5"})])), 0);
      Complete(scope, bounds, q) && !Allowed(scope, q)
  {
    var r := Requirement(scope.requiredLabel, GreaterThan, {"5"});
    var q := Query(None, None, Some(All([r])), 0);
    forall o: Object | Selects(scope, bounds, q, o)
      ensures scope.requiredLabel in o.labels
    {
      assert LabelMatches(q.labels.value.requirements[0], o, Bound(bounds, r));
    }
    CompleteIff(scope, bounds, q);
  }

  // ---- What the reconcilers ask for ----

  lemma {:induction false} MatchesMembers(scope: Scope, bounds: Bounds, q: Query, store: seq<Object>, o: Object)
    ensures o in Matches(scope, bounds, q, store) <==> o in store && Selects(scope, bounds, q, o)
  {
    hide Selects;
    if store != [] {
      MatchesMembers(scope, bounds, q, store[1..], o);
    }
  }

  /** The objects of one Job: those of the namespace whose scoped index has this value. */
  function OfJob(namespace: string, field: string, job: string): Query {
    Query(Some(namespace), Some([Requirement(field, Equals, {job})]), None, 0)
  }

  lemma Singletons(a: string, b: string)
    ensures {a} * {b} != {} <==> a == b
  {
    assert a == b ==> a in {a} * {b};
  }

  /** The cached List by Job returns exactly the objects of the namespace whose label names that Job. */
  lemma ListOfJobIff(
    scope: Scope, bounds: Bounds, namespace: string, field: string, job: string, store: seq<Object>, o: Object)
    requires field in scope.scopedIndexes
    ensures o in List(scope, bounds, OfJob(namespace, field, job), Cached(scope, store)) <==>
      && o in store && o.namespace == namespace
      && scope.requiredLabel in o.labels && o.labels[scope.requiredLabel] == job
  {
    var q := OfJob(namespace, field, job);
    assert ScopedField(scope, q.fields.value[0]);
    AllowedIsComplete(scope, bounds, q);
    assert List(scope, bounds, q, Cached(scope, store)) == List(scope, bounds, q, store);
    MatchesMembers(scope, bounds, q, store, o);
    assert Selects(scope, bounds, q, o) <==> o.namespace == namespace && FieldMatches(scope, q.fields.value[0], o);
    if scope.requiredLabel in o.labels {
      Singletons(o.labels[scope.requiredLabel], job);
    }
  }

  /** A limit cuts the matches short, and only if there are more. */
  lemma ListIsLimited(scope: Scope, bounds: Bounds, q: Query, store: seq<Object>)
    ensures var found, listed := Matches(scope, bounds, q, store), List(scope, bounds, q, store);
      && listed <= found
      && |listed| == if q.limit == 0 then |found| else Min(q.limit, |found|)
  {
  }
}
