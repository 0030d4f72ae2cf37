/** Entity component storage of `lattice_ecs`: sparse sets, the world that owns them, queries and events. */
module Ecs {
  import opened Wrappers

  type Entity = int
  type TypeId = int

  // ---------------------------------------------------------------- sparse sets

  /** A set owned by the world, hence a value: dense components, their entities, and where each entity's is. */
  datatype SparseSet<V> = SparseSet(dense: seq<V>, sparse: map<Entity, nat>, denseToEntity: seq<Entity>)
  {
    /** The index and the dense arrays are mutual inverses. */
    ghost predicate Valid()
    {
      |dense| == |denseToEntity| &&
      (forall e | e in sparse :: sparse[e] < |denseToEntity| && denseToEntity[sparse[e]] == e) &&
      (forall i: nat | i < |denseToEntity| :: denseToEntity[i] in sparse && sparse[denseToEntity[i]] == i)
    }

    function Insert(entity: Entity, component: V): SparseSet<V>
      requires Valid()
    {
      if entity in sparse then this.(dense := dense[sparse[entity] := component])
      else SparseSet(dense + [component], sparse[entity := |dense|], denseToEntity + [entity])
    }

    function Get(entity: Entity): Option<V>
      requires Valid()
    {
      if entity in sparse then Some(dense[sparse[entity]]) else None
    }
  }

  function NewSet<V>(): SparseSet<V>
  {
    SparseSet([], map[], [])
  }

  /** Inserting binds the entity and no other, keeps the inverses, and appends an entity only when it is new. */
  lemma InsertMeans<V>(s: SparseSet<V>, entity: Entity, component: V)
    requires s.Valid()
    ensures s.Insert(entity, component).Valid()
    ensures forall e :: s.Insert(entity, component).Get(e) == if e == entity then Some(component) else s.Get(e)
    ensures s.Insert(entity, component).denseToEntity ==
            if entity in s.denseToEntity then s.denseToEntity else s.denseToEntity + [entity]
  {
    var t := s.Insert(entity, component);
    if entity in s.sparse {
      assert s.denseToEntity[s.sparse[entity]] == entity;
      forall e | e in s.sparse && e != entity ensures s.sparse[e] != s.sparse[entity] {
        assert s.denseToEntity[s.sparse[e]] == e;
      }
    } else {
      assert forall i: nat | i < |s.denseToEntity| :: s.denseToEntity[i] in s.sparse;
    }
  }

  datatype Write<V> = Write(entity: Entity, component: V)

  /** The set after a run of insertions. */
  function AfterRun<V>(run: seq<Write<V>>): (s: SparseSet<V>)
    ensures s.Valid()
  {
    if run == [] then NewSet()
    else
      var n := |run| - 1;
      var s := AfterRun(run[..n]);
      InsertMeans(s, run[n].entity, run[n].component);
      s.Insert(run[n].entity, run[n].component)
  }

  /** The entities of a run in the order of their first insertion. */
  function FirstSeen<V>(run: seq<Write<V>>): seq<Entity>
  {
    if run == [] then []
    else
      var n := |run| - 1;
      var before := FirstSeen(run[..n]);
      if run[n].entity in before then before else before + [run[n].entity]
  }

  /** The last component written for an entity. */
  function LastWritten<V>(run: seq<Write<V>>, e: Entity): Option<V>
  {
    if run == [] then None
    else if run[|run| - 1].entity == e then Some(run[|run| - 1].component)
    else LastWritten(run[..|run| - 1], e)
  }

  /** After every run: each entity has its last component, and storage is in the order of first insertion. */
  lemma {:induction false} RunMeans<V>(run: seq<Write<V>>, e: Entity)
    ensures AfterRun(run).Get(e) == LastWritten(run, e) && AfterRun(run).denseToEntity == FirstSeen(run)
    decreases |run|
  {
    if run != [] {
      var n := |run| - 1;
      RunMeans(run[..n], e);
      InsertMeans(AfterRun(run[..n]), run[n].entity, run[n].component);
    }
  }

  // ---------------------------------------------------------------- queries

  datatype Row<V> = Row(entity: Entity, first: V, second: V)

  /** The entities, in order, that the second set also holds. */
  function Joined<V>(es: seq<Entity>, s2: SparseSet<V>): seq<Entity>
  {
    if es == [] then []
    else
      var n := |es| - 1;
      Joined(es[..n], s2) + if es[n] in s2.sparse then [es[n]] else []
  }

  function Entities<V>(rows: seq<Row<V>>): (es: seq<Entity>)
    ensures |es| == |rows|
  {
    if rows == [] then [] else Entities(rows[..|rows| - 1]) + [rows[|rows| - 1].entity]
  }

  /** Every row carries the components of its entity. */
  ghost predicate RowsOk<V>(rows: seq<Row<V>>, s1: SparseSet<V>, s2: SparseSet<V>)
    requires s1.Valid() && s2.Valid()
  {
    forall i | 0 <= i < |rows| :: s1.Get(rows[i].entity) == Some(rows[i].first) && s2.Get(rows[i].entity) == Some(rows[i].second)
  }

  class World<V> {
    var nextEntity: nat
    var components: map<TypeId, SparseSet<V>>

    ghost predicate Valid()
      reads this
    {
      forall t | t in components :: components[t].Valid()
    }

    constructor ()
      ensures Valid() && nextEntity == 0 && components == map[]
    {
      nextEntity, components := 0, map[];
    }

    /** The component of an entity, if any. */
    ghost function At(t: TypeId, e: Entity): Option<V>
      requires Valid()
      reads this
    {
      if t in components then components[t].Get(e) else None
    }

    /** `World::insert` */
    method Insert(entity: Entity, t: TypeId, component: V)
      requires Valid()
      modifies this`components
      ensures Valid()
      ensures forall u, e :: At(u, e) == if u == t && e == entity then Some(component) else old(At(u, e))
    {
      var storage := if t in components then components[t] else NewSet();
      InsertMeans(storage, entity, component);
      components := components[t := storage.Insert(entity, component)];
    }

    /** `World::spawn` with a pair of components; the entity number is new. */
    method Spawn(t1: TypeId, c1: V, t2: TypeId, c2: V) returns (entity: Entity)
      requires Valid()
      modifies this
      ensures Valid() && entity == old(nextEntity) && nextEntity == old(nextEntity) + 1
      ensures forall u, e :: At(u, e) == if e != entity then old(At(u, e)) else if u == t2 then Some(c2) else if u == t1 then Some(c1) else old(At(u, e))
    {
      entity := nextEntity;
      nextEntity := nextEntity + 1;
      Insert(entity, t1, c1);
      Insert(entity, t2, c2);
    }

    /** The two-component query: exactly the entities that have both, each once, in the order of the first storage. */
    method Query(t1: TypeId, t2: TypeId) returns (rows: seq<Row<V>>)
      requires Valid()
      ensures t1 !in components || t2 !in components ==> rows == []
      ensures t1 in components && t2 in components ==>
                RowsOk(rows, components[t1], components[t2]) &&
                Entities(rows) == Joined(components[t1].denseToEntity, components[t2])
      ensures forall e :: e in Entities(rows) <==> At(t1, e).Some? && At(t2, e).Some?
      ensures forall i, j | 0 <= i < j < |rows| :: Entities(rows)[i] != Entities(rows)[j]
    {
      rows := [];
      if t1 in components && t2 in components {
        var s1, s2 := components[t1], components[t2];
        var es := s1.denseToEntity;
        for k := 0 to |es|
          invariant RowsOk(rows, s1, s2) && Entities(rows) == Joined(es[..k], s2)
        {
          assert es[..k + 1][..k] == es[..k];
          var c1, c2 := s1.Get(es[k]), s2.Get(es[k]);
          if c1.Some? && c2.Some? {
            var row := Row(es[k], c1.value, c2.value);
            assert (rows + [row])[..|rows|] == rows;
            rows := rows + [row];
          }
        }
        assert es[..|es|] == es;
        StoredOnce(s1);
        JoinedMeans(es, s2);
      }
    }
  }

  /** An entity has one place in the dense arrays. */
  lemma StoredOnce<V>(s: SparseSet<V>)
    requires s.Valid()
    ensures forall i, j | 0 <= i < j < |s.denseToEntity| :: s.denseToEntity[i] != s.denseToEntity[j]
    ensures forall e :: e in s.denseToEntity <==> e in s.sparse
  {
    forall i: nat, j: nat | i < j < |s.denseToEntity| ensures s.denseToEntity[i] != s.denseToEntity[j] {
      assert s.sparse[s.denseToEntity[i]] == i && s.sparse[s.denseToEntity[j]] == j;
    }
    forall e | e in s.sparse ensures e in s.denseToEntity {
      assert s.denseToEntity[s.sparse[e]] == e;
    }
  }

  /** The order is that of the first set. */
  lemma {:induction false} JoinedInOrder<V>(es: seq<Entity>, s2: SparseSet<V>, i: nat, j: nat) returns (a: nat, b: nat)
    requires i < j < |Joined(es, s2)|
    ensures a < b < |es| && es[a] == Joined(es, s2)[i] && es[b] == Joined(es, s2)[j]
    decreases |es|
  {
    var n := |es| - 1;
    if j < |Joined(es[..n], s2)| {
      a, b := JoinedInOrder(es[..n], s2, i, j);
    } else {
      a := JoinedFrom(es[..n], s2, i);
      b := n;
    }
  }

  lemma {:induction false} JoinedFrom<V>(es: seq<Entity>, s2: SparseSet<V>, i: nat) returns (a: nat)
    requires i < |Joined(es, s2)|
    ensures a < |es| && es[a] == Joined(es, s2)[i]
    decreases |es|
  {
    var n := |es| - 1;
    if i < |Joined(es[..n], s2)| {
      a := JoinedFrom(es[..n], s2, i);
    } else {
      a := n;
    }
  }

  /** The joined list holds exactly the common entities, each once. */
  lemma {:induction false} JoinedMeans<V>(es: seq<Entity>, s2: SparseSet<V>)
    requires forall i, j | 0 <= i < j < |es| :: es[i] != es[j]
    ensures forall e :: e in Joined(es, s2) <==> e in es && e in s2.sparse
    ensures forall i, j | 0 <= i < j < |Joined(es, s2)| :: Joined(es, s2)[i] != Joined(es, s2)[j]
    decreases |es|
  {
    if es != [] {
      var n := |es| - 1;
      JoinedMeans(es[..n], s2);
      assert es == es[..n] + [es[n]];
    }
  }

  // ---------------------------------------------------------------- events

  class Events<T> {
    var events: seq<T>

    constructor ()
      ensures events == []
    {
      events := [];
    }

    method Send(event: T)
      modifies this
      ensures events == old(events) + [event]
    {
      events := events + [event];
    }
  }

  class EventReader<T> {
    var lastEventCount: nat
    ghost var seen: seq<T>   // all reads so far, one after the other

    constructor ()
      ensures lastEventCount == 0 && seen == []
    {
      lastEventCount, seen := 0, [];
    }

    /** What was read is what had been sent when it was last read; sending keeps this. */
    ghost predicate Follows(events: Events<T>)
      reads this, events
    {
      lastEventCount == |seen| && seen <= events.events
    }

    /** `EventReader::iter`: successive reads concatenate to exactly what was sent. */
    method Iter(events: Events<T>) returns (fresh_: seq<T>)
      requires Follows(events)
      modifies this
      ensures Follows(events) && seen == old(seen) + fresh_ && seen == events.events
    {
      var start := lastEventCount;
      lastEventCount := |events.events|;
      fresh_ := events.events[start..];
      seen := seen + fresh_;
    }
  }
}
