/**
 * `DELETE /template/{templateId}`: read the primary row, delete it, delete
 * one association per stored tag id, then recount every stored tag.
 */
module DeleteTemplate {
  import opened Wrappers
  import opened Records
  import opened StoreWrites
  import opened Reconciliation

  /**
   * `deleteTemplate(templateid)`: both tables afterwards and the returned
   * flag. A primary key holding an association row has no `tags`, so
   * `Object.keys(undefined)` throws after the primary delete; the handler
   * answers 500, which the flag `false` stands for.
   */
  function Store(db: Db, tid: string, failed: set<Key>): (Db, bool) {
    var pk := PrimaryKey(tid);
    if pk !in db.templates || pk in failed then (db, false)
    else
      var exist := db.templates[pk];
      var t1 := db.templates - {pk};
      if exist.Association? then (Db(t1, db.tags), false)
      else
        var (t2, ok) := ApplyWrites(t1, AssociationDeletes(exist.tags, tid), failed);
        if !ok then (Db(t2, db.tags), false)
        else (Db(t2, Reconcile(db.tags, t2, exist.tags)), true)
  }

  /** The handler: a missing path parameter becomes the empty template id. */
  function Handle(db: Db, templateId: Option<string>, failed: set<Key>): (Db, int) {
    var (db', ok) := Store(db, templateId.GetOr(""), failed);
    (db', if ok then 200 else 500)
  }

  lemma StoreOutside(db: Db, tid: string, failed: set<Key>, k: Key)
    requires k.templateid != tid
    ensures k in Store(db, tid, failed).0.templates <==> k in db.templates
    ensures k in db.templates ==> Store(db, tid, failed).0.templates[k] == db.templates[k]
  {
    var pk := PrimaryKey(tid);
    if pk in db.templates && pk !in failed && db.templates[pk].Template? {
      var ws := AssociationDeletes(db.templates[pk].tags, tid);
      assert k !in WriteKeys(ws) by {
        forall w | w in ws ensures w.key != k {
          var i :| 0 <= i < |ws| && ws[i] == w;
        }
      }
      ApplyWritesOutside(db.templates - {pk}, ws, failed, k);
    }
  }

  /**
   * `deleteTemplate` once the primary row is deleted: the association
   * deletes of the first `m` entries are done and stay done, `m` stops at
   * the first failing delete, the result is `true` exactly when every
   * delete succeeded, and a failure leaves the tag table as it was. With
   * distinct ids, exactly the primary and those `m` associations are gone.
   */
  lemma StoreOutcome(db: Db, tid: string, failed: set<Key>) returns (m: nat)
    ensures var pk := PrimaryKey(tid);
      var (db', ok) := Store(db, tid, failed);
      pk in db.templates && pk !in failed && db.templates[pk].Template? ==>
        var tags := db.templates[pk].tags;
        && m <= |tags|
        && db'.templates == ApplyAll(db.templates - {pk}, AssociationDeletes(tags, tid)[..m])
        && (DistinctIds(tags) ==> db'.templates == (db.templates - {pk}) - AssocKeys(tags[..m], tid))
        && (ok <==> m == |tags|)
        && (m < |tags| ==> AssocKey(tags[m].tagid, tid) in failed)
        && (!ok ==> db'.tags == db.tags)
  {
    m := 0;
    var pk := PrimaryKey(tid);
    if pk in db.templates && pk !in failed && db.templates[pk].Template? {
      var tags := db.templates[pk].tags;
      var ws := AssociationDeletes(tags, tid);
      ApplyWritesStops(db.templates - {pk}, ws, failed);
      m := FirstFailure(ws, failed);
      if DistinctIds(tags) {
        var prefix := ws[..m];
        assert DistinctIds(tags[..m]);
        KeysDistinct(prefix, tags[..m], tid);
        KeysFollowRecord(prefix, tags[..m], tid);
        ApplyAllDistinctDeletes(db.templates - {pk}, prefix);
      }
    }
  }

  /**
   * The failure paths: a missing primary or a failed primary delete changes
   * nothing; once the primary delete succeeded the primary stays gone
   * whatever fails later; a failure skips the recount; other templates'
   * rows are never touched.
   */
  lemma StoreFailures(db: Db, tid: string, failed: set<Key>)
    ensures PrimaryKey(tid) !in db.templates ==> Store(db, tid, failed) == (db, false)
    ensures PrimaryKey(tid) in failed ==> Store(db, tid, failed) == (db, false)
    ensures PrimaryKey(tid) in db.templates && PrimaryKey(tid) !in failed
            ==> PrimaryKey(tid) !in Store(db, tid, failed).0.templates
    ensures !Store(db, tid, failed).1 ==> Store(db, tid, failed).0.tags == db.tags
    ensures forall k: Key :: k.templateid != tid ==>
      (k in Store(db, tid, failed).0.templates <==> k in db.templates)
      && (k in db.templates ==> Store(db, tid, failed).0.templates[k] == db.templates[k])
  {
    forall k: Key | k.templateid != tid
      ensures (k in Store(db, tid, failed).0.templates <==> k in db.templates)
        && (k in db.templates ==> Store(db, tid, failed).0.templates[k] == db.templates[k])
    {
      StoreOutside(db, tid, failed, k);
    }
    var pk := PrimaryKey(tid);
    if pk in db.templates && pk !in failed && db.templates[pk].Template? {
      var ws := AssociationDeletes(db.templates[pk].tags, tid);
      assert pk !in WriteKeys(ws) by {
        forall w | w in ws ensures w.key != pk {
          var i :| 0 <= i < |ws| && ws[i] == w;
          PrimaryIsNotAssociation(tid, db.templates[pk].tags[i].tagid, tid);
        }
      }
      ApplyWritesOutside(db.templates - {pk}, ws, failed, pk);
    }
  }

  /** The template table after a delete in which every write succeeded. */
  lemma AllDeletesApplied(db: Db, tid: string, failed: set<Key>)
    requires PrimaryKey(tid) in db.templates && db.templates[PrimaryKey(tid)].Template?
    requires DistinctIds(db.templates[PrimaryKey(tid)].tags)
    requires Store(db, tid, failed).1
    ensures Store(db, tid, failed).0.templates
            == db.templates - {PrimaryKey(tid)} - AssocKeys(db.templates[PrimaryKey(tid)].tags, tid)
  {
    var pk := PrimaryKey(tid);
    var rec := db.templates[pk].tags;
    var ws := AssociationDeletes(rec, tid);
    var t1 := db.templates - {pk};
    ApplyWritesStops(t1, ws, failed);
    assert ws[..|ws|] == ws;
    KeysDistinct(ws, rec, tid);
    ApplyAllDistinctDeletes(t1, ws);
    KeysFollowRecord(ws, rec, tid);
  }

  /**
   * A successful delete of a template that satisfied the association
   * invariant leaves no row of it: the primary and every association are
   * gone.
   */
  lemma StoreRemovesTemplate(db: Db, tid: string, failed: set<Key>)
    requires AssociationsMatch(db.templates, tid)
    requires Store(db, tid, failed).1
    ensures RowsOf(Store(db, tid, failed).0.templates, tid) == {}
  {
    AllDeletesApplied(db, tid, failed);
  }

  /**
   * After a successful delete every tag of the template is reconciled
   * against the table without it: a protected tag keeps its row, with its
   * id, and its counter is the live count, possibly 0; any other tag has the
   * live count, or no row when that is 0. Other tag names keep their rows.
   */
  lemma StoreReconciles(db: Db, tid: string, failed: set<Key>)
    requires PrimaryKey(tid) in db.templates && db.templates[PrimaryKey(tid)].Template?
    requires DistinctNames(db.templates[PrimaryKey(tid)].tags)
    requires Store(db, tid, failed).1
    ensures var (db', _) := Store(db, tid, failed);
      var rec := db.templates[PrimaryKey(tid)].tags;
      && (forall e :: e in rec ==> Settled(db'.tags, db'.templates, e))
      && (forall e :: e in rec && Protected(e.tagname) && e.tagname in db.tags ==>
            e.tagname in db'.tags && db'.tags[e.tagname].tagid == db.tags[e.tagname].tagid)
      && (forall n :: n !in Names(rec) ==>
            (n in db'.tags <==> n in db.tags) && (n in db.tags ==> db'.tags[n] == db.tags[n]))
  {
    var rec := db.templates[PrimaryKey(tid)].tags;
    var (db', _) := Store(db, tid, failed);
    ReconcileSettlesAll(db.tags, db'.templates, rec);
    forall e | e in rec && Protected(e.tagname) && e.tagname in db.tags
      ensures e.tagname in db'.tags && db'.tags[e.tagname].tagid == db.tags[e.tagname].tagid
    {
      ReconcileKeepsProtected(db.tags, db'.templates, rec, e.tagname);
    }
    forall n | n !in Names(rec)
      ensures (n in db'.tags <==> n in db.tags) && (n in db.tags ==> db'.tags[n] == db.tags[n])
    {
      ReconcileUntouched(db.tags, db'.templates, rec, n);
    }
  }
}
