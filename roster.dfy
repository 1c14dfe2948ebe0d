/**
 * The Employee table (id -> display name, attends flag) that the bot's roster
 * commands write and that getParticipants reads to build the targets of a
 * group call.
 */
module Roster {
  import opened Maybe

  /** A row of the Employee table apart from its key. */
  datatype Employee = Employee(displayName: string, attends: bool)

  /** An invitation target of a Graph call: a user identity with an id and a display name. */
  datatype Target = Target(id: string, displayName: string)

  /** The read order lists every key of the table exactly once. */
  predicate WellFormed(rows: map<string, Employee>, order: seq<string>)
  {
    (forall i, j :: 0 <= i < j < |order| ==> order[i] != order[j]) &&
    (forall id :: id in rows ==> id in order) &&
    (forall i :: 0 <= i < |order| ==> order[i] in rows)
  }

  /** The row `id` exists and its attends column is true. */
  predicate Attends(table: map<string, Employee>, id: string)
  {
    id in table && table[id].attends
  }

  /**
   * The targets for the rows `ids`, read in that order, keeping those whose
   * attends column is true.
   */
  function AttendingTargets(table: map<string, Employee>, ids: seq<string>): (r: seq<Target>)
    ensures |r| <= |ids|
  {
    if ids == [] then []
    else
      var last := ids[|ids| - 1];
      AttendingTargets(table, ids[..|ids| - 1]) + (if Attends(table, last) then [Target(last, table[last].displayName)] else [])
  }

  /** The rows a reader yields before the Read at index `fault` (if any) raises a store exception. */
  function RowsRead(order: seq<string>, fault: Option<nat>): (r: seq<string>)
    ensures r <= order
    ensures fault.Some? && fault.value < |order| ==> |r| == fault.value
    ensures (fault.None? || fault.value >= |order|) ==> r == order
  {
    if fault.Some? && fault.value < |order| then order[..fault.value] else order
  }

  /** The position at which a row inserted at `at` lands in the read order (at most the end). */
  function Slot(order: seq<string>, at: nat): (k: nat)
    ensures k <= |order| && (at <= |order| ==> k == at)
  {
    if at < |order| then at else |order|
  }

  /** The targets with the given id removed. */
  function Without(ts: seq<Target>, id: string): (r: seq<Target>)
    ensures forall t :: t in r <==> t in ts && t.id != id
  {
    if ts == [] then []
    else Without(ts[..|ts| - 1], id) + (if ts[|ts| - 1].id == id then [] else [ts[|ts| - 1]])
  }

  /** Every target comes from an attending row of `ids` and carries that row's id and display name. */
  lemma {:induction false} AttendingTargetsSound(table: map<string, Employee>, ids: seq<string>, t: Target)
    requires t in AttendingTargets(table, ids)
    ensures t.id in ids && Attends(table, t.id) && t.displayName == table[t.id].displayName
  {
    var init := ids[..|ids| - 1];
    if t in AttendingTargets(table, init) {
      AttendingTargetsSound(table, init, t);
    }
  }

  /**
   * Every attending row is taken, in read order: the target of row k stands at
   * the position given by the number of attending rows read before it.
   */
  lemma {:induction false} AttendingTargetsComplete(table: map<string, Employee>, ids: seq<string>, k: nat)
    requires k < |ids| && Attends(table, ids[k])
    ensures var p := |AttendingTargets(table, ids[..k])|;
      p < |AttendingTargets(table, ids)| && AttendingTargets(table, ids)[p] == Target(ids[k], table[ids[k]].displayName)
  {
    var init := ids[..|ids| - 1];
    if k == |ids| - 1 {
      assert ids[..k] == init;
    } else {
      assert init[..k] == ids[..k];
      AttendingTargetsComplete(table, init, k);
    }
  }

  /** The targets read from a prefix of the rows are a prefix of the full list. */
  lemma {:induction false} AttendingTargetsPrefix(table: map<string, Employee>, ids: seq<string>, k: nat)
    requires k <= |ids|
    ensures AttendingTargets(table, ids[..k]) <= AttendingTargets(table, ids)
  {
    if k < |ids| {
      var init := ids[..|ids| - 1];
      assert init[..k] == ids[..k];
      AttendingTargetsPrefix(table, init, k);
    } else {
      assert ids[..k] == ids;
    }
  }

  /** The list is empty exactly when no row read is attending. */
  lemma {:induction false} AttendingTargetsEmpty(table: map<string, Employee>, ids: seq<string>)
    ensures AttendingTargets(table, ids) == [] <==> forall k :: 0 <= k < |ids| ==> !Attends(table, ids[k])
  {
    if ids != [] {
      var init := ids[..|ids| - 1];
      AttendingTargetsEmpty(table, init);
      if AttendingTargets(table, ids) == [] {
        forall k | 0 <= k < |ids| ensures !Attends(table, ids[k]) {
          if k < |ids| - 1 {
            assert ids[k] == init[k];
          }
        }
      }
    }
  }

  /** The two tables agree on the row `id` (both lack it, or both hold the same row). */
  predicate SameRow(t1: map<string, Employee>, t2: map<string, Employee>, id: string)
  {
    (id in t1 <==> id in t2) && (id in t1 ==> t1[id] == t2[id])
  }

  /** Rows outside `ids` do not influence the list. */
  lemma {:induction false} AttendingTargetsFrame(t1: map<string, Employee>, t2: map<string, Employee>, ids: seq<string>)
    requires forall i :: 0 <= i < |ids| ==> SameRow(t1, t2, ids[i])
    ensures AttendingTargets(t1, ids) == AttendingTargets(t2, ids)
  {
    if ids != [] {
      AttendingTargetsFrame(t1, t2, ids[..|ids| - 1]);
    }
  }

  /** Marking a row absent removes exactly that id's target and leaves the others in order. */
  lemma {:induction false} AttendingAfterAbsent(table: map<string, Employee>, ids: seq<string>, id: string)
    requires id in table
    ensures AttendingTargets(table[id := table[id].(attends := false)], ids) == Without(AttendingTargets(table, ids), id)
  {
    if ids != [] {
      var init := ids[..|ids| - 1];
      var last := ids[|ids| - 1];
      AttendingAfterAbsent(table, init, id);
      var before := AttendingTargets(table, init);
      var tail := if Attends(table, last) then [Target(last, table[last].displayName)] else [];
      assert AttendingTargets(table, ids) == before + tail;
      WithoutAppend(before, tail, id);
    }
  }

  lemma {:induction false} WithoutAppend(a: seq<Target>, b: seq<Target>, id: string)
    requires |b| <= 1
    ensures Without(a + b, id) == Without(a, id) + Without(b, id)
  {
    if b != [] {
      assert (a + b)[..|a + b| - 1] == a;
      assert Without([], id) == [];
      assert b[..0] == [];
    } else {
      assert a + b == a;
    }
  }

  /** Reading two runs of rows one after the other yields their two lists one after the other. */
  lemma {:induction false} AttendingTargetsAppend(table: map<string, Employee>, a: seq<string>, b: seq<string>)
    ensures AttendingTargets(table, a + b) == AttendingTargets(table, a) + AttendingTargets(table, b)
  {
    if b == [] {
      assert a + b == a;
    } else {
      var init := b[..|b| - 1];
      assert (a + b)[..|a + b| - 1] == a + init;
      AttendingTargetsAppend(table, a, init);
    }
  }

  /**
   * A new attending row, read at position k, adds its target to the list
   * between the targets of the rows read before it and those read after it.
   */
  lemma AttendingAfterRegister(table: map<string, Employee>, ids: seq<string>, k: nat, id: string, name: string)
    requires id !in ids && k <= |ids|
    ensures var before := AttendingTargets(table, ids);
      var p := |AttendingTargets(table, ids[..k])|;
      p <= |before| &&
      AttendingTargets(table[id := Employee(name, true)], ids[..k] + [id] + ids[k..]) ==
      before[..p] + [Target(id, name)] + before[p..]
  {
    var table' := table[id := Employee(name, true)];
    var front, back := AttendingTargets(table, ids[..k]), AttendingTargets(table, ids[k..]);
    assert ids[..k] + ids[k..] == ids;
    forall i | 0 <= i < |ids| ensures SameRow(table, table', ids[i]) {
      assert ids[i] in ids;
    }
    AttendingTargetsFrame(table, table', ids[..k]);
    AttendingTargetsFrame(table, table', ids[k..]);
    AttendingTargetsAppend(table', ids[..k] + [id], ids[k..]);
    AttendingTargetsAppend(table', ids[..k], [id]);
    assert AttendingTargets(table', [id]) == [Target(id, name)] by {
      assert [id][..0] == [];
    }
    AttendingTargetsAppend(table, ids[..k], ids[k..]);
    var before := front + back;
    assert before[..|front|] == front && before[|front|..] == back;
  }

  /** Inserting a fresh key anywhere in the read order keeps the order a list of the keys. */
  lemma InsertKeepsWellFormed(rows: map<string, Employee>, order: seq<string>, k: nat, id: string, name: string)
    requires WellFormed(rows, order) && id !in rows && k <= |order|
    ensures WellFormed(rows[id := Employee(name, true)], order[..k] + [id] + order[k..])
  {
    var order' := order[..k] + [id] + order[k..];
    forall i | 0 <= i < |order'| ensures order'[i] == if i < k then order[i] else if i == k then id else order[i - 1] {
    }
    forall i, j | 0 <= i < j < |order'| ensures order'[i] != order'[j] {
    }
    forall key | key in rows ensures key in order' {
      var j :| 0 <= j < |order| && order[j] == key;
      assert order'[if j < k then j else j + 1] == key;
    }
    assert order'[k] == id;
  }

  /**
   * The Employee table. `rows` is the keyed content; `order` is the order in
   * which a reader of "SELECT id, displayname, attends FROM Employee" yields the
   * rows, holding every key exactly once. The query has no ORDER BY, so where a
   * new row is read is up to the store: Insert takes that position as `at`.
   */
  class EmployeeTable {
    var rows: map<string, Employee>
    var order: seq<string>

    ghost predicate Valid()
      reads this
    {
      WellFormed(rows, order)
    }

    constructor ()
      ensures Valid() && rows == map[] && order == []
    {
      rows := map[];
      order := [];
    }

    /**
     * INSERT of a new row with attends = 1. The id is the primary key, so the
     * insert fails, leaving the table as it was, when the id is present or the
     * store raises an exception.
     */
    method Insert(id: string, displayName: string, storeFault: bool, at: nat) returns (inserted: bool)
      requires Valid()
      modifies this
      ensures Valid()
      ensures inserted <==> !storeFault && id !in old(rows)
      ensures inserted ==> rows == old(rows)[id := Employee(displayName, true)] &&
                           order == old(order)[..Slot(old(order), at)] + [id] + old(order)[Slot(old(order), at)..]
      ensures !inserted ==> rows == old(rows) && order == old(order)
    {
      inserted := !storeFault && id !in rows;
      if inserted {
        var k := Slot(order, at);
        rows := rows[id := Employee(displayName, true)];
        order := order[..k] + [id] + order[k..];
        assert WellFormed(rows, order) by { InsertKeepsWellFormed(old(rows), old(order), k, id, displayName); }
      }
    }

    /**
     * UPDATE setting attends = 0 for one id; no row changes when the id is
     * absent. `completed` is false when the store raised an exception.
     */
    method MarkAbsent(id: string, storeFault: bool) returns (completed: bool)
      requires Valid()
      modifies this
      ensures Valid()
      ensures completed == !storeFault
      ensures order == old(order)
      ensures rows == if completed && id in old(rows) then old(rows)[id := old(rows)[id].(attends := false)] else old(rows)
    {
      completed := !storeFault;
      if completed && id in rows {
        rows := rows[id := rows[id].(attends := false)];
      }
    }

    /**
     * getParticipants: read the rows in order and keep a target for each
     * attending one. A store exception at the Read with index `readFault` is
     * caught and the targets gathered so far are returned.
     */
    method Participants(readFault: Option<nat>) returns (targets: seq<Target>)
      requires Valid()
      ensures targets == AttendingTargets(rows, RowsRead(order, readFault))
    {
      targets := [];
      var i := 0;
      while i < |order|
        invariant 0 <= i <= |order|
        invariant readFault.Some? ==> i <= readFault.value
        invariant targets == AttendingTargets(rows, order[..i])
      {
        if readFault == Some(i) {
          break;
        }
        var id := order[i];
        assert order[..i + 1][..i] == order[..i];
        if rows[id].attends {
          targets := targets + [Target(id, rows[id].displayName)];
        }
        i := i + 1;
      }
      assert order[..|order|] == order;
    }
  }
}
