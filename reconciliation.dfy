/**
 * The live recount of updateTemplate.ts `updateTemplateCount` and of the
 * second loop of deleteTemplate.ts `deleteTemplate` (the two are the same
 * code). For every entry `tagId: tagName` the association partition
 * "tag#" + tagId is queried and counted; a protected name gets that count, any
 * other name loses its tag row when the count is 0 and gets the count
 * otherwise. The counter write is `SET gsi_sk = :newCount`, an upsert.
 */
module Reconciliation {
  import opened Wrappers
  import opened Records

  /** The rows a `Query` on `id = "tag#" + tagid` returns. */
  function Partition(table: Table, tagid: string): set<Key> {
    set k | k in table && k.id == "tag#" + tagid
  }

  /** `queryResult.Items.length`. */
  function Recount(table: Table, tagid: string): nat {
    |Partition(table, tagid)|
  }

  /** `SET gsi_sk = n` on the row of `name`, creating a bare row when there is none. */
  function SetCount(tags: TagTable, name: string, n: nat): TagTable {
    tags[name := if name in tags then tags[name].(count := n) else TagItem(None, None, n)]
  }

  function ReconcileOne(tags: TagTable, table: Table, e: TagRef): TagTable {
    var n := Recount(table, e.tagid);
    if Protected(e.tagname) then SetCount(tags, e.tagname, n)
    else if n == 0 then tags - {e.tagname}
    else SetCount(tags, e.tagname, n)
  }

  /** The loop over `Object.entries(taglist)`, in entry order. */
  function Reconcile(tags: TagTable, table: Table, rec: TagsRecord): TagTable
    decreases |rec|
  {
    if rec == [] then tags else Reconcile(ReconcileOne(tags, table, rec[0]), table, rec[1..])
  }

  /**
   * What reconciliation leaves for entry `e`: a protected name, or a name whose
   * recount is positive, has a row whose counter is the recount; any other
   * name has no row.
   */
  predicate Settled(tags: TagTable, table: Table, e: TagRef) {
    if Protected(e.tagname) || Recount(table, e.tagid) > 0
    then e.tagname in tags && tags[e.tagname].count == Recount(table, e.tagid)
    else e.tagname !in tags
  }

  /** A name that no entry carries keeps its row, or its absence. */
  lemma {:induction false} ReconcileUntouched(tags: TagTable, table: Table, rec: TagsRecord, n: string)
    requires n !in Names(rec)
    ensures n in Reconcile(tags, table, rec) <==> n in tags
    ensures n in tags ==> Reconcile(tags, table, rec)[n] == tags[n]
    decreases |rec|
  {
    if rec != [] {
      assert rec[0] in rec;
      assert Names(rec[1..]) <= Names(rec) by {
        forall x | x in Names(rec[1..]) ensures x in Names(rec) {
          var e :| e in rec[1..] && e.tagname == x;
          assert e in rec;
        }
      }
      ReconcileUntouched(ReconcileOne(tags, table, rec[0]), table, rec[1..], n);
    }
  }

  /** The last entry carrying a name decides that name's row. */
  lemma {:induction false} ReconcileSettles(tags: TagTable, table: Table, rec: TagsRecord, i: nat)
    requires i < |rec|
    requires forall j :: i < j < |rec| ==> rec[j].tagname != rec[i].tagname
    ensures Settled(Reconcile(tags, table, rec), table, rec[i])
    decreases |rec|
  {
    var t1 := ReconcileOne(tags, table, rec[0]);
    if i == 0 {
      assert Settled(t1, table, rec[0]);
      assert rec[0].tagname !in Names(rec[1..]) by {
        forall e | e in rec[1..] ensures e.tagname != rec[0].tagname {
          var j :| 0 <= j < |rec[1..]| && rec[1..][j] == e;
          assert rec[j + 1] == e;
        }
      }
      ReconcileUntouched(t1, table, rec[1..], rec[0].tagname);
    } else {
      ReconcileSettles(t1, table, rec[1..], i - 1);
    }
  }

  /**
   * A protected tag row is never deleted: it survives with its id and
   * partition, and only its counter may change.
   */
  lemma {:induction false} ReconcileKeepsProtected(tags: TagTable, table: Table, rec: TagsRecord, n: string)
    requires Protected(n) && n in tags
    ensures n in Reconcile(tags, table, rec)
    ensures Reconcile(tags, table, rec)[n] == tags[n].(count := Reconcile(tags, table, rec)[n].count)
    decreases |rec|
  {
    if rec != [] {
      var t1 := ReconcileOne(tags, table, rec[0]);
      assert n in t1 && t1[n] == tags[n].(count := t1[n].count);
      ReconcileKeepsProtected(t1, table, rec[1..], n);
    }
  }

  lemma {:induction false} ReconcileConcat(tags: TagTable, table: Table, a: TagsRecord, b: TagsRecord)
    ensures Reconcile(tags, table, a + b) == Reconcile(Reconcile(tags, table, a), table, b)
    decreases |a|
  {
    if a == [] {
      assert a + b == b;
    } else {
      assert (a + b)[1..] == a[1..] + b;
      ReconcileConcat(ReconcileOne(tags, table, a[0]), table, a[1..], b);
    }
  }

  /** With one entry per name, reconciliation settles every entry. */
  lemma ReconcileSettlesAll(tags: TagTable, table: Table, rec: TagsRecord)
    requires DistinctNames(rec)
    ensures forall e :: e in rec ==> Settled(Reconcile(tags, table, rec), table, e)
  {
    forall e | e in rec ensures Settled(Reconcile(tags, table, rec), table, e) {
      var i :| 0 <= i < |rec| && rec[i] == e;
      ReconcileSettles(tags, table, rec, i);
    }
  }

  /**
   * Reconciling `first`, then `second`: every entry of `second` is settled,
   * so is every entry of `first` whose name `second` does not carry, and
   * every other name keeps its row.
   */
  lemma ReconcileTwice(tags: TagTable, table: Table, first: TagsRecord, second: TagsRecord)
    requires DistinctNames(first) && DistinctNames(second)
    ensures var r := Reconcile(Reconcile(tags, table, first), table, second);
      && (forall e :: e in second ==> Settled(r, table, e))
      && (forall e :: e in first && e.tagname !in Names(second) ==> Settled(r, table, e))
      && (forall n :: n !in Names(first) && n !in Names(second) ==>
            (n in r <==> n in tags) && (n in tags ==> r[n] == tags[n]))
  {
    var r1 := Reconcile(tags, table, first);
    ReconcileSettlesAll(r1, table, second);
    ReconcileSettlesAll(tags, table, first);
    forall e | e in first && e.tagname !in Names(second)
      ensures Settled(Reconcile(r1, table, second), table, e)
    {
      ReconcileUntouched(r1, table, second, e.tagname);
    }
    forall n | n !in Names(first) && n !in Names(second)
      ensures var r := Reconcile(r1, table, second);
        (n in r <==> n in tags) && (n in tags ==> r[n] == tags[n])
    {
      ReconcileUntouched(tags, table, first, n);
      ReconcileUntouched(r1, table, second, n);
    }
  }
}
