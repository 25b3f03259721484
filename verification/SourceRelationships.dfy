/** The current rows of source_relationships and the graphs they declare. */
module SourceRelationships {
  import opened Basics
  import opened Graphs

  /** Bounds on graph reads. The service class carries one value of this type. */
  datatype Limits = Limits(roots: nat, visited: nat, examined: nat, hops: nat, frontier: nat) {
    predicate Valid() {
      visited >= 1
    }
  }

  const DEFAULT_LIMITS := Limits(100, 100, 500, 8, 100)

  datatype Kind = DerivedFrom | CommonOrigin

  datatype Direction = LowToHigh | HighToLow | NoDirection

  datatype Lifecycle = Active | Retracted

  datatype Relationship = Relationship(
    id: Id, task: Id, low: Id, high: Id, kind: Kind, direction: Direction,
    lifecycle: Lifecycle, revision: nat, latestChange: Id, updatedAt: Time)
  {
    /** The CHECK constraints of the table. */
    predicate Valid() {
      low.number < high.number && revision >= 1 && (kind == CommonOrigin <==> direction == NoDirection)
    }

    predicate Touches(source: Id) {
      low == source || high == source
    }

    predicate ActiveDerived(inTask: Id) {
      task == inTask && lifecycle == Active && kind == DerivedFrom
    }

    function DerivedEnd(): Id {
      if direction == LowToHigh then low else high
    }

    function UpstreamEnd(): Id {
      if direction == LowToHigh then high else low
    }

    function Other(source: Id): Id {
      if low == source then high else low
    }
  }

  type Rows = map<Id, Relationship>

  /** Active derived relationships of a task with the given end. */
  function DerivedTouching(rows: Rows, task: Id, source: Id): set<Id> {
    set id | id in rows && rows[id].ActiveDerived(task) && rows[id].Touches(source)
  }

  /** Active relationships of either kind with the given end. */
  function ActiveTouching(rows: Rows, task: Id, source: Id): set<Id> {
    set id | id in rows && rows[id].task == task && rows[id].lifecycle == Active && rows[id].Touches(source)
  }

  /** Each active derived relationship is an edge from the derived source to its upstream source. */
  ghost function DerivedEdges(rows: Rows, task: Id): set<(Id, Id)> {
    set id | id in rows && rows[id].ActiveDerived(task) :: (rows[id].DerivedEnd(), rows[id].UpstreamEnd())
  }

  /** Every active relationship connects its ends in both directions. */
  ghost function NeighbourEdges(rows: Rows, task: Id): set<(Id, Id)> {
    (set id | id in rows && rows[id].task == task && rows[id].lifecycle == Active :: (rows[id].low, rows[id].high))
    + (set id | id in rows && rows[id].task == task && rows[id].lifecycle == Active :: (rows[id].high, rows[id].low))
  }

  ghost predicate AcyclicTask(rows: Rows, task: Id) {
    Acyclic(DerivedEdges(rows, task))
  }
}
