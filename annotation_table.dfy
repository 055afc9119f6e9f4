/**
 * The pending-annotation table of the bot-detection dashboard, as values.
 *
 * The dashboard keeps a table with the columns (user_id, cluster_id, label) of
 * the labels an analyst has given during one session and not yet saved. This
 * module defines a row, the encoding of the radio choice into a label, and the
 * upsert that MARK performs, and proves what the upsert promises: one row per
 * account, append for a new account, relabel-in-place for a known one.
 */
module AnnotationTable {
  import opened Wrappers

  /** One pending annotation: a row (user_id, cluster_id, label) of the buffer. */
  datatype Row = Row(userId: int, clusterId: int, labelValue: int)

  /** One press of MARK: the selected account, the selected cluster and the radio text. */
  datatype MarkOp = MarkOp(userId: int, clusterId: int, labelText: string)

  /** The two options of the label radio, in the order shown. */
  const BotText: string := "BOT"
  const HumanText: string := "HUMAN"
  const RadioOptions: seq<string> := [BotText, HumanText]

  /** The integer labels stored in the table. */
  const BotLabel: int := 2
  const HumanLabel: int := 1

  predicate IsStoredLabel(labelValue: int)
  {
    labelValue == BotLabel || labelValue == HumanLabel
  }

  /** The radio text as the integer labelValue: 'BOT' is 2, every other text is 1. */
  function EncodeLabel(choice: string): (labelValue: int)
    ensures IsStoredLabel(labelValue)
    ensures labelValue == BotLabel <==> choice == BotText
    ensures labelValue == HumanLabel <==> choice != BotText
  {
    if choice == BotText then BotLabel else HumanLabel
  }

  /** The two radio options are told apart by their labels. */
  lemma RadioOptionsEncodeDistinctly()
    ensures EncodeLabel(RadioOptions[0]) == BotLabel
    ensures EncodeLabel(RadioOptions[1]) == HumanLabel
    ensures EncodeLabel(RadioOptions[0]) != EncodeLabel(RadioOptions[1])
  {
  }

  /** Some row of the table belongs to account `id` (the filter on user_id is not empty). */
  predicate HasUser(rows: seq<Row>, id: int)
  {
    exists k :: 0 <= k < |rows| && rows[k].userId == id
  }

  /** No two rows belong to the same account. */
  ghost predicate DistinctIds(rows: seq<Row>)
  {
    forall i, j :: 0 <= i < j < |rows| ==> rows[i].userId != rows[j].userId
  }

  /** Every stored labelValue is one the radio can produce. */
  ghost predicate LabelsEncoded(rows: seq<Row>)
  {
    forall k :: 0 <= k < |rows| ==> IsStoredLabel(rows[k].labelValue)
  }

  /** The first row of account `id`, if any. */
  function Find(rows: seq<Row>, id: int): (r: Option<Row>)
    ensures r.Some? <==> HasUser(rows, id)
    ensures r.Some? ==> r.value.userId == id && r.value in rows
  {
    if rows == [] then None
    else if rows[0].userId == id then Some(rows[0])
    else
      assert forall k :: 1 <= k < |rows| ==> rows[k] == rows[1..][k - 1];
      Find(rows[1..], id)
  }

  /** The number of rows of account `id`. */
  function CountUser(rows: seq<Row>, id: int): nat
  {
    if rows == [] then 0
    else (if rows[0].userId == id then 1 else 0) + CountUser(rows[1..], id)
  }

  /**
   * The masked column assignment: the labelValue of EVERY row of account `id`
   * becomes `labelValue`; all other rows and columns stay as they are.
   */
  function Relabel(rows: seq<Row>, id: int, labelValue: int): (r: seq<Row>)
    ensures |r| == |rows|
    ensures forall k :: 0 <= k < |rows| ==>
              r[k] == if rows[k].userId == id then rows[k].(labelValue := labelValue) else rows[k]
  {
    if rows == [] then []
    else
      (if rows[0].userId == id then [rows[0].(labelValue := labelValue)] else [rows[0]])
      + Relabel(rows[1..], id, labelValue)
  }

  /**
   * What MARK does to the table: append a row for an account not yet in it,
   * otherwise overwrite the labelValue of its row.
   */
  function Upsert(rows: seq<Row>, id: int, clusterId: int, labelValue: int): (r: seq<Row>)
    ensures |r| == if HasUser(rows, id) then |rows| else |rows| + 1
    ensures forall other :: HasUser(r, other) <==> HasUser(rows, other) || other == id
  {
    if !HasUser(rows, id) then
      var r := rows + [Row(id, clusterId, labelValue)];
      assert forall k :: 0 <= k < |rows| ==> r[k] == rows[k];
      assert r[|rows|].userId == id;
      r
    else Relabel(rows, id, labelValue)
  }

  /** MARK of a new account appends its row at the end; earlier rows stay, in order. */
  lemma UpsertAppends(rows: seq<Row>, id: int, clusterId: int, labelValue: int)
    requires !HasUser(rows, id)
    ensures var r := Upsert(rows, id, clusterId, labelValue);
            |r| == |rows| + 1 && r[..|rows|] == rows && r[|rows|] == Row(id, clusterId, labelValue)
  {
  }

  /**
   * MARK of a known account keeps length and order, changes only the labelValue of
   * that account's row, and keeps its cluster id.
   */
  lemma UpsertOverwrites(rows: seq<Row>, id: int, clusterId: int, labelValue: int, i: int)
    requires DistinctIds(rows)
    requires 0 <= i < |rows| && rows[i].userId == id
    ensures var r := Upsert(rows, id, clusterId, labelValue);
            |r| == |rows|
            && r[i] == Row(id, rows[i].clusterId, labelValue)
            && forall k :: 0 <= k < |rows| && k != i ==> r[k] == rows[k]
  {
    assert HasUser(rows, id);
  }

  /** Distinct account ids are kept by every MARK. */
  lemma UpsertKeepsDistinct(rows: seq<Row>, id: int, clusterId: int, labelValue: int)
    requires DistinctIds(rows)
    ensures DistinctIds(Upsert(rows, id, clusterId, labelValue))
  {
    var r := Upsert(rows, id, clusterId, labelValue);
    if HasUser(rows, id) {
      assert forall k :: 0 <= k < |rows| ==> r[k].userId == rows[k].userId;
    } else {
      assert forall k :: 0 <= k < |rows| ==> r[k] == rows[k];
    }
  }

  /** Every stored labelValue stays one the radio can produce. */
  lemma UpsertKeepsLabelsEncoded(rows: seq<Row>, id: int, clusterId: int, choice: string)
    requires LabelsEncoded(rows)
    ensures LabelsEncoded(Upsert(rows, id, clusterId, EncodeLabel(choice)))
  {
  }

  /** With distinct ids, an account has one row if present and none otherwise. */
  lemma {:induction false} CountOfDistinct(rows: seq<Row>, id: int)
    requires DistinctIds(rows)
    ensures CountUser(rows, id) == if HasUser(rows, id) then 1 else 0
  {
    if rows != [] {
      var tail := rows[1..];
      assert DistinctIds(tail) by {
        forall i, j | 0 <= i < j < |tail| ensures tail[i].userId != tail[j].userId {
          assert tail[i] == rows[i + 1] && tail[j] == rows[j + 1];
        }
      }
      CountOfDistinct(tail, id);
      assert HasUser(rows, id) <==> rows[0].userId == id || HasUser(tail, id) by {
        if HasUser(tail, id) {
          var k :| 0 <= k < |tail| && tail[k].userId == id;
          assert rows[k + 1].userId == id;
        }
        if HasUser(rows, id) && rows[0].userId != id {
          var k :| 0 <= k < |rows| && rows[k].userId == id;
          assert tail[k - 1].userId == id;
        }
      }
      if rows[0].userId == id {
        forall k | 0 <= k < |tail| ensures tail[k].userId != id {
          assert tail[k] == rows[k + 1];
        }
      }
    }
  }

  /** After any MARK the buffer holds exactly one row of the marked account. */
  lemma UpsertExactlyOne(rows: seq<Row>, id: int, clusterId: int, labelValue: int)
    requires DistinctIds(rows)
    ensures CountUser(Upsert(rows, id, clusterId, labelValue), id) == 1
  {
    var r := Upsert(rows, id, clusterId, labelValue);
    UpsertKeepsDistinct(rows, id, clusterId, labelValue);
    if HasUser(rows, id) {
      var k :| 0 <= k < |rows| && rows[k].userId == id;
      assert r[k].userId == id;
    } else {
      assert r[|rows|].userId == id;
    }
    CountOfDistinct(r, id);
  }

  lemma {:induction false} FindRelabel(rows: seq<Row>, id: int, labelValue: int, other: int)
    ensures Find(Relabel(rows, id, labelValue), other) ==
            if other == id then
              (match Find(rows, id)
               case Some(row) => Some(row.(labelValue := labelValue))
               case None => None)
            else Find(rows, other)
  {
    if rows != [] {
      var r := Relabel(rows, id, labelValue);
      assert r[1..] == Relabel(rows[1..], id, labelValue);
      FindRelabel(rows[1..], id, labelValue, other);
    }
  }

  lemma {:induction false} FindAppend(rows: seq<Row>, row: Row, other: int)
    ensures Find(rows + [row], other) ==
            if HasUser(rows, other) then Find(rows, other)
            else if row.userId == other then Some(row)
            else None
  {
    if rows != [] {
      assert (rows + [row])[1..] == rows[1..] + [row];
      FindAppend(rows[1..], row, other);
    }
  }

  /**
   * The table read as a map from account to row: MARK sets the marked
   * account's labelValue (its cluster id is the stored one if it was present, the
   * given one otherwise) and no other account's row changes.
   */
  lemma UpsertFind(rows: seq<Row>, id: int, clusterId: int, labelValue: int, other: int)
    ensures Find(Upsert(rows, id, clusterId, labelValue), other) ==
            if other == id then
              Some(Row(id, match Find(rows, id) case Some(row) => row.clusterId case None => clusterId, labelValue))
            else Find(rows, other)
  {
    if HasUser(rows, id) {
      FindRelabel(rows, id, labelValue, other);
    } else {
      FindAppend(rows, Row(id, clusterId, labelValue), other);
    }
  }

  /** Marking an account twice leaves one row with the later labelValue, whatever the first one was. */
  lemma UpsertTwice(rows: seq<Row>, id: int, clusterId1: int, labelValue1: int, clusterId2: int, labelValue2: int)
    ensures Upsert(Upsert(rows, id, clusterId1, labelValue1), id, clusterId2, labelValue2)
            == Upsert(rows, id, clusterId1, labelValue2)
  {
    var once := Upsert(rows, id, clusterId1, labelValue1);
    var twice := Upsert(once, id, clusterId2, labelValue2);
    var direct := Upsert(rows, id, clusterId1, labelValue2);
    if HasUser(rows, id) {
      var k :| 0 <= k < |rows| && rows[k].userId == id;
      assert once[k].userId == id;
    } else {
      assert once[|rows|].userId == id;
    }
    assert HasUser(once, id);
    assert |twice| == |direct|;
    forall k | 0 <= k < |twice| ensures twice[k] == direct[k] {
      if !HasUser(rows, id) && k < |rows| {
        assert rows[k].userId != id;
      }
    }
  }

  /** The table after a sequence of MARK presses, the last press applied last. */
  function Replay(rows: seq<Row>, ops: seq<MarkOp>): (r: seq<Row>)
    ensures |rows| <= |r| <= |rows| + |ops|
    ensures forall id :: HasUser(r, id) <==> HasUser(rows, id) || Marked(ops, id)
  {
    if ops == [] then rows
    else
      var last := ops[|ops| - 1];
      assert forall k :: 0 <= k < |ops| - 1 ==> ops[k] == ops[..|ops| - 1][k];
      Upsert(Replay(rows, ops[..|ops| - 1]), last.userId, last.clusterId, EncodeLabel(last.labelText))
  }

  /** Some press in `ops` marked account `id`. */
  predicate Marked(ops: seq<MarkOp>, id: int)
  {
    exists k :: 0 <= k < |ops| && ops[k].userId == id
  }

  /** The latest press for account `id`. */
  function LastMarkOf(ops: seq<MarkOp>, id: int): (r: Option<MarkOp>)
    ensures r.Some? <==> Marked(ops, id)
    ensures r.Some? ==> r.value.userId == id
  {
    if ops == [] then None
    else if ops[|ops| - 1].userId == id then Some(ops[|ops| - 1])
    else
      assert forall k :: 0 <= k < |ops| - 1 ==> ops[k] == ops[..|ops| - 1][k];
      LastMarkOf(ops[..|ops| - 1], id)
  }

  /** The earliest press for account `id`. */
  function FirstMarkOf(ops: seq<MarkOp>, id: int): (r: Option<MarkOp>)
    ensures r.Some? <==> Marked(ops, id)
    ensures r.Some? ==> r.value.userId == id
  {
    if ops == [] then None
    else if ops[0].userId == id then Some(ops[0])
    else
      assert forall k :: 1 <= k < |ops| ==> ops[k] == ops[1..][k - 1];
      FirstMarkOf(ops[1..], id)
  }

  lemma {:induction false} FirstMarkOfSnoc(ops: seq<MarkOp>, op: MarkOp, id: int)
    ensures FirstMarkOf(ops + [op], id) ==
            if Marked(ops, id) then FirstMarkOf(ops, id)
            else if op.userId == id then Some(op)
            else None
  {
    if ops != [] {
      assert (ops + [op])[1..] == ops[1..] + [op];
      FirstMarkOfSnoc(ops[1..], op, id);
    }
  }

  /**
   * After a sequence of presses the table holds, for every account that was
   * marked, the labelValue of its LATEST press, with the cluster id of its row
   * before the presses or else of its EARLIEST press; unmarked accounts keep
   * their rows.
   */
  lemma {:induction false} ReplayFind(rows: seq<Row>, ops: seq<MarkOp>, id: int)
    ensures Find(Replay(rows, ops), id) ==
            match LastMarkOf(ops, id)
            case None => Find(rows, id)
            case Some(last) =>
              Some(Row(id,
                       match Find(rows, id)
                       case Some(row) => row.clusterId
                       case None => FirstMarkOf(ops, id).value.clusterId,
                       EncodeLabel(last.labelText)))
  {
    if ops != [] {
      var pre, last := ops[..|ops| - 1], ops[|ops| - 1];
      assert ops == pre + [last];
      ReplayFind(rows, pre, id);
      UpsertFind(Replay(rows, pre), last.userId, last.clusterId, EncodeLabel(last.labelText), id);
      FirstMarkOfSnoc(pre, last, id);
    }
  }

  /** Distinct ids and encoded labels hold after any sequence of presses. */
  lemma {:induction false} ReplayKeepsInvariant(rows: seq<Row>, ops: seq<MarkOp>)
    requires DistinctIds(rows) && LabelsEncoded(rows)
    ensures DistinctIds(Replay(rows, ops)) && LabelsEncoded(Replay(rows, ops))
  {
    if ops != [] {
      var pre, last := ops[..|ops| - 1], ops[|ops| - 1];
      ReplayKeepsInvariant(rows, pre);
      UpsertKeepsDistinct(Replay(rows, pre), last.userId, last.clusterId, EncodeLabel(last.labelText));
      UpsertKeepsLabelsEncoded(Replay(rows, pre), last.userId, last.clusterId, last.labelText);
    }
  }

  /**
   * Starting from the empty buffer, any sequence of presses leaves exactly one
   * row per marked account and none for the others, holding the latest labelValue
   * and the cluster id of the first press.
   */
  lemma SessionFromEmpty(ops: seq<MarkOp>, id: int)
    ensures DistinctIds(Replay([], ops))
    ensures CountUser(Replay([], ops), id) == if Marked(ops, id) then 1 else 0
    ensures Marked(ops, id) ==>
              Find(Replay([], ops), id) ==
              Some(Row(id, FirstMarkOf(ops, id).value.clusterId,
                       EncodeLabel(LastMarkOf(ops, id).value.labelText)))
  {
    ReplayKeepsInvariant([], ops);
    ReplayFind([], ops, id);
    CountOfDistinct(Replay([], ops), id);
  }

  /** Marking account 42 in cluster 7 as BOT and then as HUMAN leaves the single row (42, 7, 1). */
  lemma BotThenHuman()
    ensures Replay([], [MarkOp(42, 7, BotText), MarkOp(42, 7, HumanText)]) == [Row(42, 7, HumanLabel)]
  {
    var bot, human := MarkOp(42, 7, BotText), MarkOp(42, 7, HumanText);
    assert [bot, human][..1] == [bot] && [bot][..0] == [];
    assert Replay([], [bot]) == Upsert([], 42, 7, BotLabel);
    var once := [Row(42, 7, BotLabel)];
    assert Upsert([], 42, 7, BotLabel) == once;
    assert once[0].userId == 42;
    assert Replay([], [bot, human]) == Upsert(once, 42, 7, HumanLabel);
  }
}
