/**
 * The dashboard's pending-annotation buffer as an object: a table of rows
 * that MARK updates in place and SAVE hands to the label store and then
 * empties.
 */
module AnnotationSession {
  import opened AnnotationTable

  /**
   * The label store behind `label_users`. Its behaviour is not part of this
   * model; this object only records, in order, every table handed to it.
   */
  class LabelStore {
    var batches: seq<seq<Row>>

    constructor ()
      ensures batches == []
    {
      batches := [];
    }

    method LabelUsers(batch: seq<Row>)
      modifies this
      ensures batches == old(batches) + [batch]
    {
      batches := batches + [batch];
    }
  }

  class AnnotationBuffer {
    /** The rows (user_id, cluster_id, label), in insertion order. */
    var rows: seq<Row>

    /** One row per account, and every label 1 or 2. */
    ghost predicate Valid()
      reads this
    {
      DistinctIds(rows) && LabelsEncoded(rows)
    }

    /** The buffer starts with no rows. */
    constructor ()
      ensures Valid() && rows == []
    {
      rows := [];
    }

    /** Whether the filter of the rows on `userId` is non-empty. */
    method Contains(userId: int) returns (present: bool)
      ensures present == HasUser(rows, userId)
    {
      present := false;
      var i := 0;
      while i < |rows|
        invariant 0 <= i <= |rows|
        invariant present <==> exists k :: 0 <= k < i && rows[k].userId == userId
      {
        if rows[i].userId == userId {
          present := true;
        }
        i := i + 1;
      }
    }

    /**
     * MARK: append (userId, clusterId, label) for an account not yet in the
     * buffer, otherwise overwrite the label of every row of that account.
     */
    method Mark(userId: int, clusterId: int, labelText: string)
      requires Valid()
      modifies this
      ensures Valid()
      ensures rows == Upsert(old(rows), userId, clusterId, EncodeLabel(labelText))
      ensures !HasUser(old(rows), userId) ==>
                rows == old(rows) + [Row(userId, clusterId, EncodeLabel(labelText))]
      ensures HasUser(old(rows), userId) ==>
                |rows| == |old(rows)| &&
                forall k :: 0 <= k < |rows| ==>
                  rows[k] == if old(rows)[k].userId == userId
                             then old(rows)[k].(labelValue := EncodeLabel(labelText))
                             else old(rows)[k]
      ensures CountUser(rows, userId) == 1
    {
      var newLabel := EncodeLabel(labelText);
      UpsertKeepsDistinct(rows, userId, clusterId, newLabel);
      UpsertKeepsLabelsEncoded(rows, userId, clusterId, labelText);
      UpsertExactlyOne(rows, userId, clusterId, newLabel);
      var present := Contains(userId);
      if !present {
        rows := rows + [Row(userId, clusterId, newLabel)];
      } else {
        var i := 0;
        while i < |rows|
          invariant 0 <= i <= |rows| == |old(rows)|
          invariant forall k :: 0 <= k < i ==>
                      rows[k] == if old(rows)[k].userId == userId
                                 then old(rows)[k].(labelValue := newLabel)
                                 else old(rows)[k]
          invariant forall k :: i <= k < |rows| ==> rows[k] == old(rows)[k]
        {
          if rows[i].userId == userId {
            rows := rows[i := rows[i].(labelValue := newLabel)];
          }
          i := i + 1;
        }
        assert rows == Relabel(old(rows), userId, newLabel);
      }
    }

    /**
     * SAVE: hand the buffer to the label store, then empty it, whatever the
     * store did with it.
     */
    method Save(store: LabelStore)
      requires Valid()
      modifies this, store
      ensures Valid() && rows == []
      ensures store.batches == old(store.batches) + [old(rows)]
    {
      store.LabelUsers(rows);
      rows := [];
    }
  }

  /** A session: BOT then HUMAN for one account, then SAVE. */
  method MarkTwiceThenSave()
  {
    var buffer := new AnnotationBuffer();
    var store := new LabelStore();
    buffer.Mark(42, 7, BotText);
    buffer.Mark(42, 7, HumanText);
    assert buffer.rows == [Row(42, 7, HumanLabel)];
    buffer.Save(store);
    assert store.batches == [[Row(42, 7, HumanLabel)]];
    assert buffer.rows == [];
  }
}
