/**
 * The `AuditResult` table: one row per (audit class name, content type, object id,
 * validated attribute), written only by `update_or_create`.
 */
module Ledger {
  import opened Common

  /** An opaque point in time, as `timezone.now()` returns it. */
  type Timestamp = int

  datatype Key = Key(className: string, contentType: string, objectId: int, attribute: string)

  /** `last_validation_date`, `validated_attribute_value`, `message` and `valid`. */
  datatype Row = Row(date: Timestamp, value: Option<string>, message: string, valid: bool)

  /**
   * No row has an empty attribute: the engine stores a falsy attribute under `"all"`, so a
   * table written only by it never holds one.
   */
  ghost predicate WellFormed(rows: map<Key, Row>)
  {
    forall k :: k in rows ==> k.attribute != ""
  }

  class AuditResults {
    /** A map has one value per key: at most one row exists for each key tuple. */
    var rows: map<Key, Row>

    ghost predicate Valid()
      reads this
    {
      WellFormed(rows)
    }

    /** The table as it stands when a run begins. */
    constructor (initial: map<Key, Row>)
      requires WellFormed(initial)
      ensures Valid() && rows == initial
    {
      rows := initial;
    }

    /** `update_or_create`: the row under `k` is created or replaced as a whole; no other row changes. */
    method UpdateOrCreate(k: Key, r: Row)
      requires Valid() && k.attribute != ""
      modifies this
      ensures Valid()
      ensures rows == old(rows)[k := r]
    {
      rows := rows[k := r];
    }
  }
}
