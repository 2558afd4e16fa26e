/**
 * `POST /template/{templateId}/copycount`: add 1 to the primary row's copy
 * count with `SET copycount = if_not_exists(copycount, 0) + 1`, then write
 * the new value into the association row of every stored tag id.
 */
module CopyCount {
  import opened Wrappers
  import opened Records
  import opened StoreWrites

  /**
   * `updateTemplate(templateid)` of incrementalTemplateCopycount.ts: the new
   * template table and the returned flag. `PrimaryKey(tid) in failed` stands
   * for an update that returns no attributes. A primary key holding an
   * association row has no `tags`; `Object.keys(undefined)` throws after
   * the increment, which the flag `false` stands for.
   */
  function Store(table: Table, tid: string, failed: set<Key>): (Table, bool) {
    var pk := PrimaryKey(tid);
    if pk !in table || pk in failed then (table, false)
    else
      var exist := table[pk];
      var c := exist.copycount + 1;
      var t1 := table[pk := WithCopycount(exist, c)];
      if exist.Association? then (t1, false)
      else ApplyWrites(t1, CopycountWrites(exist.tags, tid, c), failed)
  }

  /** The handler: a missing path parameter becomes the empty template id; the tag table is not touched. */
  function Handle(db: Db, templateId: Option<string>, failed: set<Key>): (Db, int) {
    var (t', ok) := Store(db.templates, templateId.GetOr(""), failed);
    (Db(t', db.tags), if ok then 200 else 500)
  }

  lemma WritesAvoid(rec: TagsRecord, tid: string, c: nat, k: Key)
    requires k.templateid != tid || k == PrimaryKey(tid)
    ensures k !in WriteKeys(CopycountWrites(rec, tid, c))
  {
    var ws := CopycountWrites(rec, tid, c);
    forall w | w in ws ensures w.key != k {
      var i :| 0 <= i < |ws| && ws[i] == w;
      PrimaryIsNotAssociation(tid, rec[i].tagid, tid);
    }
  }

  /**
   * `updateTemplate` once the primary's copy count is raised to `c`: the
   * association updates of the first `m` entries are done and stay done,
   * `m` stops at the first failing update, and the result is `true`
   * exactly when every update succeeded. With distinct ids, the first `m`
   * associations hold `c` and every other row keeps its value.
   */
  lemma StoreOutcome(table: Table, tid: string, failed: set<Key>) returns (m: nat)
    ensures var pk := PrimaryKey(tid);
      var (t', ok) := Store(table, tid, failed);
      pk in table && pk !in failed && table[pk].Template? ==>
        var tags := table[pk].tags;
        var c := table[pk].copycount + 1;
        var t1 := table[pk := WithCopycount(table[pk], c)];
        && m <= |tags|
        && t' == ApplyAll(t1, CopycountWrites(tags, tid, c)[..m])
        && (ok <==> m == |tags|)
        && (m < |tags| ==> AssocKey(tags[m].tagid, tid) in failed)
        && (DistinctIds(tags) ==>
              && t'.Keys == t1.Keys + AssocKeys(tags[..m], tid)
              && (forall i :: 0 <= i < m ==>
                    var k := AssocKey(tags[i].tagid, tid);
                    t'[k] == if k in t1 then WithCopycount(t1[k], c) else Association(None, c))
              && (forall k :: k in t1 && k !in AssocKeys(tags[..m], tid) ==> t'[k] == t1[k]))
  {
    m := 0;
    var pk := PrimaryKey(tid);
    if pk in table && pk !in failed && table[pk].Template? {
      var tags := table[pk].tags;
      var c := table[pk].copycount + 1;
      var t1 := table[pk := WithCopycount(table[pk], c)];
      var ws := CopycountWrites(tags, tid, c);
      ApplyWritesStops(t1, ws, failed);
      m := FirstFailure(ws, failed);
      if DistinctIds(tags) {
        var prefix := ws[..m];
        assert DistinctIds(tags[..m]);
        KeysDistinct(prefix, tags[..m], tid);
        KeysFollowRecord(prefix, tags[..m], tid);
        ApplyAllDistinctCopycounts(t1, prefix);
        forall i | 0 <= i < m
          ensures var k := AssocKey(tags[i].tagid, tid);
            ApplyAll(t1, prefix)[k] == if k in t1 then WithCopycount(t1[k], c) else Association(None, c)
        {
          assert Landed(t1, ApplyAll(t1, prefix), prefix[i]);
        }
      }
    }
  }

  /**
   * The failure paths: a missing primary or an update without attributes
   * changes nothing; once the increment happened it stays, whatever fails
   * later; other templates' rows are never touched.
   */
  lemma StoreFailures(table: Table, tid: string, failed: set<Key>)
    ensures PrimaryKey(tid) !in table ==> Store(table, tid, failed) == (table, false)
    ensures PrimaryKey(tid) in failed ==> Store(table, tid, failed) == (table, false)
    ensures PrimaryKey(tid) in table && PrimaryKey(tid) !in failed ==>
      && PrimaryKey(tid) in Store(table, tid, failed).0
      && Store(table, tid, failed).0[PrimaryKey(tid)]
         == WithCopycount(table[PrimaryKey(tid)], table[PrimaryKey(tid)].copycount + 1)
    ensures forall k: Key :: k.templateid != tid ==>
      (k in Store(table, tid, failed).0 <==> k in table)
      && (k in table ==> Store(table, tid, failed).0[k] == table[k])
  {
    var pk := PrimaryKey(tid);
    if pk in table && pk !in failed && table[pk].Template? {
      var exist := table[pk];
      var c := exist.copycount + 1;
      var t1 := table[pk := WithCopycount(exist, c)];
      var ws := CopycountWrites(exist.tags, tid, c);
      WritesAvoid(exist.tags, tid, c, pk);
      ApplyWritesOutside(t1, ws, failed, pk);
      forall k: Key | k.templateid != tid
        ensures (k in Store(table, tid, failed).0 <==> k in table)
          && (k in table ==> Store(table, tid, failed).0[k] == table[k])
      {
        WritesAvoid(exist.tags, tid, c, k);
        ApplyWritesOutside(t1, ws, failed, k);
      }
    }
  }

  /**
   * When every write succeeds, each stored tag id's association row holds
   * the new copy count: an existing row keeps its other fields, a missing
   * one is created by the upsert with no date. No key outside those rows
   * and the primary changes.
   */
  lemma StorePropagates(table: Table, tid: string, failed: set<Key>)
    requires PrimaryKey(tid) in table && table[PrimaryKey(tid)].Template?
    requires DistinctIds(table[PrimaryKey(tid)].tags)
    requires Store(table, tid, failed).1
    ensures var t' := Store(table, tid, failed).0;
      var c := table[PrimaryKey(tid)].copycount + 1;
      && t'.Keys == table.Keys + AssocKeys(table[PrimaryKey(tid)].tags, tid)
      && t'[PrimaryKey(tid)] == WithCopycount(table[PrimaryKey(tid)], c)
      && (forall e :: e in table[PrimaryKey(tid)].tags ==>
            var k := AssocKey(e.tagid, tid);
            t'[k] == if k in table then WithCopycount(table[k], c) else Association(None, c))
      && (forall k :: (k in table && k != PrimaryKey(tid) && k !in AssocKeys(table[PrimaryKey(tid)].tags, tid))
            ==> t'[k] == table[k])
  {
    var pk := PrimaryKey(tid);
    var exist := table[pk];
    var c := exist.copycount + 1;
    var t1 := table[pk := WithCopycount(exist, c)];
    var ws := CopycountWrites(exist.tags, tid, c);
    var t' := Store(table, tid, failed).0;
    assert t' == ApplyAll(t1, ws) by {
      ApplyWritesStops(t1, ws, failed);
      assert ws[..|ws|] == ws;
    }
    assert DistinctKeys(ws) && WriteKeys(ws) == AssocKeys(exist.tags, tid) by {
      KeysDistinct(ws, exist.tags, tid);
      KeysFollowRecord(ws, exist.tags, tid);
    }
    ApplyAllDistinctCopycounts(t1, ws);
    WritesAvoid(exist.tags, tid, c, pk);
    forall e | e in exist.tags
      ensures var k := AssocKey(e.tagid, tid);
        t'[k] == if k in table then WithCopycount(table[k], c) else Association(None, c)
    {
      var i :| 0 <= i < |exist.tags| && exist.tags[i] == e;
      assert Landed(t1, t', ws[i]);
      PrimaryIsNotAssociation(tid, e.tagid, tid);
    }
  }

  /**
   * Copy counts stay in sync: a successful increment on a template that
   * satisfied the association invariant keeps it, with the primary's count
   * one higher, every row of the template changed only in its copy count,
   * and no row added or removed.
   */
  lemma StoreKeepsInSync(table: Table, tid: string, failed: set<Key>)
    requires AssociationsMatch(table, tid)
    requires Store(table, tid, failed).1
    ensures var t' := Store(table, tid, failed).0;
      && AssociationsMatch(t', tid)
      && t'.Keys == table.Keys
      && t'[PrimaryKey(tid)].copycount == table[PrimaryKey(tid)].copycount + 1
      && forall k :: k in RowsOf(table, tid) ==>
           t'[k] == WithCopycount(table[k], table[PrimaryKey(tid)].copycount + 1)
  {
    StorePropagates(table, tid, failed);
    var t' := Store(table, tid, failed).0;
    var pk := PrimaryKey(tid);
    assert RowsOf(t', tid) == RowsOf(table, tid);
    forall e | e in t'[pk].tags
      ensures AssocKey(e.tagid, tid) in t'
      && t'[AssocKey(e.tagid, tid)] == Association(Some(t'[pk].createdDate), t'[pk].copycount)
    {
      assert AssocKey(e.tagid, tid) in table;
    }
  }
}
