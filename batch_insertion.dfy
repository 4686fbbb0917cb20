/**
 * The destination store as the migration sees it: a batch inserter that
 * accepts nodes with caller-chosen ids, relationships between ids, deferred
 * schema indexes and uniqueness constraints, and a final shutdown. The store's
 * on-disk format is not modelled; the inserter records, in call order, every
 * creation request it receives.
 */
module BatchInsertion {
  import opened PropertyValues

  /** One request made to the batch inserter. */
  datatype Event =
    | NodeCreated(id: int64, properties: seq<CoercedProperty>, labels: seq<string>)
    | RelationshipCreated(startId: int64, endId: int64, relType: string, properties: seq<CoercedProperty>)
    | DeferredIndexCreated(labelName: string, propertyKey: string)
    | DeferredConstraintCreated(labelName: string, propertyKey: string)
    | ShutDown

  /** A batch inserter opened on an empty store directory. */
  class Inserter {
    /** Every request received so far, oldest first. */
    var log: seq<Event>

    constructor()
      ensures log == []
    {
      log := [];
    }

    /** Creates a node under the id it had in the origin database. */
    method CreateNode(id: int64, properties: seq<CoercedProperty>, labels: seq<string>)
      modifies this
      ensures log == old(log) + [NodeCreated(id, properties, labels)]
    {
      log := log + [NodeCreated(id, properties, labels)];
    }

    /** Creates a relationship between two node ids. */
    method CreateRelationship(startId: int64, endId: int64, relType: string, properties: seq<CoercedProperty>)
      modifies this
      ensures log == old(log) + [RelationshipCreated(startId, endId, relType, properties)]
    {
      log := log + [RelationshipCreated(startId, endId, relType, properties)];
    }

    /** Schedules a schema index on one property of one label. */
    method CreateDeferredIndex(labelName: string, propertyKey: string)
      modifies this
      ensures log == old(log) + [DeferredIndexCreated(labelName, propertyKey)]
    {
      log := log + [DeferredIndexCreated(labelName, propertyKey)];
    }

    /** Schedules a uniqueness constraint on one property of one label. */
    method CreateDeferredConstraint(labelName: string, propertyKey: string)
      modifies this
      ensures log == old(log) + [DeferredConstraintCreated(labelName, propertyKey)]
    {
      log := log + [DeferredConstraintCreated(labelName, propertyKey)];
    }

    /** Flushes the store and closes it. */
    method Shutdown()
      modifies this
      ensures log == old(log) + [ShutDown]
    {
      log := log + [ShutDown];
    }
  }
}
