/** Published records by slot, the writer's key index and the dependency relation they make up. */
module ResourceRecords {
  import opened Digraph
  import opened ResourceTypes
  import opened Wrappers

  datatype Record = Record(key: Key, handle: Handle, kind: nat, state: ResourceState, revision: nat, deps: seq<Dependency>)

  /** The key index names the slot of every resident key and of nothing else. */
  ghost predicate Indexed(published: seq<Option<Record>>, index: map<Key, nat>)
  {
    && (forall k :: k in index ==> index[k] < |published| && published[index[k]].Some? && published[index[k]].value.key == k)
    && (forall i :: 0 <= i < |published| && published[i].Some? ==>
          published[i].value.key in index && index[published[i].value.key] == i)
  }

  /** The dependency relation over keys: edges lead to keys that need not be resident. */
  ghost function Relation(published: seq<Option<Record>>, index: map<Key, nat>): (g: Graph<Key>)
    requires Indexed(published, index)
    ensures forall k :: k in g <==> k in index
    ensures forall k :: k in index ==> g[k] == Targets(published[index[k]].value.deps)
  {
    map k | k in index :: Targets(published[index[k]].value.deps)
  }

  /** The slot holds a record that depends on the key, directly or through other resident keys. */
  ghost predicate DependsOn(published: seq<Option<Record>>, index: map<Key, nat>, slot: nat, changed: Key)
    requires Indexed(published, index)
  {
    && slot < |published| && published[slot].Some?
    && published[slot].value.key != changed
    && Reach(Relation(published, index), published[slot].value.key, changed)
  }

  /** Publishing a record for a key replaces that key's targets and nothing else. */
  lemma RelationAfterPublish(published: seq<Option<Record>>, index: map<Key, nat>, slot: nat, record: Record)
    requires Indexed(published, index) && slot < |published|
    requires if published[slot].Some? then published[slot].value.key == record.key else record.key !in index
    ensures Indexed(published[slot := Some(record)], index[record.key := slot])
    ensures Relation(published[slot := Some(record)], index[record.key := slot])
         == Relation(published, index)[record.key := Targets(record.deps)]
  {
  }

  lemma RelationAfterRetire(published: seq<Option<Record>>, index: map<Key, nat>, slot: nat)
    requires Indexed(published, index) && slot < |published| && published[slot].Some?
    ensures Indexed(published[slot := None], index - {published[slot].value.key})
    ensures Relation(published[slot := None], index - {published[slot].value.key})
         == Relation(published, index) - {published[slot].value.key}
  {
  }

  /** The handle names the record in its slot, not an earlier occupant. */
  predicate Live(published: seq<Option<Record>>, h: Handle)
  {
    h.slot < |published| && published[h.slot].Some? && published[h.slot].value.handle == h
  }
}
