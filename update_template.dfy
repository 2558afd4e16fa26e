/**
 * `PUT /template`: read the stored row at (id, templateid), rewrite it with
 * the stored copy count, put one association per new tag id, delete the
 * associations of the tag ids that were dropped, then recount the dropped
 * tags and the new tags.
 */
module UpdateTemplate {
  import opened Wrappers
  import opened Records
  import opened StoreWrites
  import opened TagResolution
  import opened Reconciliation

  /** The parsed JSON body. */
  datatype Body = Body(id: string, templateid: string, title: string, prompt: string,
                       isPublic: bool, tags: seq<string>)

  /** The `Request` record of updateTemplate.ts: it has no copy count. */
  datatype Request = Request(
    id: string, templateid: string, title: string, prompt: string, isPublic: bool,
    usermailaddress: string, tags: TagsRecord, createdDate: string, gsiPk: string, gsiSk: string)

  datatype Response = Response(statusCode: int, stored: Option<Request>)

  /** The rewritten primary row; `copycount` comes from the stored row. */
  function PrimaryItem(req: Request, copycount: nat): Item {
    Template(req.title, req.prompt, req.isPublic, req.usermailaddress, req.tags,
             req.createdDate, copycount, req.gsiPk, req.gsiSk)
  }

  /** `deletedTags`: the stored entries whose id the new record does not have, in stored order. */
  function DeletedTags(exist: TagsRecord, updated: TagsRecord): (d: TagsRecord)
    ensures forall e :: e in d <==> e in exist && e.tagid !in Ids(updated)
    decreases |exist|
  {
    if exist == [] then []
    else
      var rest := DeletedTags(exist[1..], updated);
      assert forall e :: e in exist <==> e == exist[0] || e in exist[1..];
      if exist[0].tagid in Ids(updated) then rest else [exist[0]] + rest
  }

  /** A distinct record's tail is distinct and differs from its head. */
  lemma DistinctTail(r: TagsRecord)
    requires r != []
    ensures DistinctIds(r) ==> DistinctIds(r[1..]) && forall e :: e in r[1..] ==> e.tagid != r[0].tagid
    ensures DistinctNames(r) ==> DistinctNames(r[1..]) && forall e :: e in r[1..] ==> e.tagname != r[0].tagname
  {
    forall e | e in r[1..]
      ensures DistinctIds(r) ==> e.tagid != r[0].tagid
      ensures DistinctNames(r) ==> e.tagname != r[0].tagname
    {
      var j :| 0 <= j < |r[1..]| && r[1..][j] == e;
      assert r[j + 1] == e;
    }
  }

  /** An entry that differs from every entry of a distinct record can go in front of it. */
  lemma DistinctCons(x: TagRef, r: TagsRecord)
    ensures DistinctIds(r) && (forall e :: e in r ==> e.tagid != x.tagid) ==> DistinctIds([x] + r)
    ensures DistinctNames(r) && (forall e :: e in r ==> e.tagname != x.tagname) ==> DistinctNames([x] + r)
  {
    forall i, j | 0 < i < j < |[x] + r| ensures ([x] + r)[i] == r[i - 1] && ([x] + r)[j] == r[j - 1] {
    }
    forall j | 0 < j < |[x] + r| ensures ([x] + r)[j] in r {
      assert ([x] + r)[j] == r[j - 1];
    }
  }

  /** The dropped entries keep the stored record's distinct ids and names. */
  lemma {:induction false} DeletedTagsDistinct(exist: TagsRecord, updated: TagsRecord)
    ensures DistinctIds(exist) ==> DistinctIds(DeletedTags(exist, updated))
    ensures DistinctNames(exist) ==> DistinctNames(DeletedTags(exist, updated))
    decreases |exist|
  {
    if exist != [] {
      DeletedTagsDistinct(exist[1..], updated);
      DistinctTail(exist);
      DistinctCons(exist[0], DeletedTags(exist[1..], updated));
    }
  }

  /** The association puts, then the association deletes, of `updateTemplate`. */
  function Writes(req: Request, exist: TagsRecord, copycount: nat): seq<Write> {
    AssociationPuts(req.tags, req.templateid, req.createdDate, copycount)
    + AssociationDeletes(DeletedTags(exist, req.tags), req.templateid)
  }

  /**
   * `updateTemplate(requestBody)`: both tables afterwards and the returned
   * flag. A stored row that is an association has no `tags`, so
   * `Object.keys(undefined)` throws right after the primary put; the handler
   * catches it and answers 500, which the flag `false` stands for.
   */
  function Store(db: Db, req: Request, failed: set<Key>): (Db, bool) {
    var key := Key(req.id, req.templateid);
    if key !in db.templates || key in failed then (db, false)
    else
      var exist := db.templates[key];
      var t1 := db.templates[key := PrimaryItem(req, exist.copycount)];
      if exist.Association? then (Db(t1, db.tags), false)
      else
        var (t2, ok) := ApplyWrites(t1, Writes(req, exist.tags, exist.copycount), failed);
        if !ok then (Db(t2, db.tags), false)
        else
          var deleted := DeletedTags(exist.tags, req.tags);
          (Db(t2, Reconcile(Reconcile(db.tags, t2, deleted), t2, req.tags)), true)
  }

  /** Tag resolution of the handler: the update copy, which leaves known counters alone. */
  function ResolveTags(tags: TagTable, body: Body, uuids: seq<string>): (TagTable, TagsRecord)
    requires |uuids| == |body.tags|
  {
    if body.isPublic then Resolve(tags, [], body.tags, uuids, KeepExisting) else (tags, [])
  }

  function BuildRequest(body: Body, timestamp: string, userId: string, usermailaddress: string,
                        tags: TagsRecord): Request
  {
    Request(body.id, body.templateid, body.title, body.prompt, body.isPublic, usermailaddress,
            tags, timestamp, "userid", userId + "#" + timestamp)
  }

  /** The handler; `uuids`, `timestamp` and `failed` as for creation. */
  function Handle(db: Db, body: Body, timestamp: string, userId: string, usermailaddress: string,
                  uuids: seq<string>, failed: set<Key>): (Db, Response)
    requires |uuids| == |body.tags|
  {
    var (tags', rec) := ResolveTags(db.tags, body, uuids);
    var req := BuildRequest(body, timestamp, userId, usermailaddress, rec);
    var (db', ok) := Store(Db(db.templates, tags'), req, failed);
    (db', if ok then Response(200, Some(req)) else Response(500, None))
  }

  /** The association writes of an update hit distinct keys of template `tid` only. */
  lemma WritesDistinct(req: Request, exist: TagsRecord, copycount: nat)
    requires DistinctIds(req.tags) && DistinctIds(DeletedTags(exist, req.tags))
    ensures DistinctKeys(Writes(req, exist, copycount))
    ensures forall w :: w in Writes(req, exist, copycount) ==> w.key.templateid == req.templateid
  {
    var tid := req.templateid;
    var d := DeletedTags(exist, req.tags);
    var ws := Writes(req, exist, copycount);
    var np := |req.tags|;
    forall i, j | 0 <= i < j < |ws| ensures ws[i].key != ws[j].key {
      var a := if i < np then req.tags[i] else d[i - np];
      var b := if j < np then req.tags[j] else d[j - np];
      assert ws[i].key == AssocKey(a.tagid, tid) && ws[j].key == AssocKey(b.tagid, tid);
      if ws[i].key == ws[j].key {
        AssocKeyInjective(a.tagid, b.tagid, tid, tid);
      }
    }
    forall w | w in ws ensures w.key.templateid == tid {
      var i :| 0 <= i < |ws| && ws[i] == w;
    }
  }

  /** Every write of an update, and the primary rewrite, stays inside template `tid`. */
  lemma StoreOutside(db: Db, req: Request, failed: set<Key>, k: Key)
    requires k.templateid != req.templateid
    ensures k in Store(db, req, failed).0.templates <==> k in db.templates
    ensures k in db.templates ==> Store(db, req, failed).0.templates[k] == db.templates[k]
  {
    var key := Key(req.id, req.templateid);
    if key in db.templates && key !in failed && db.templates[key].Template? {
      var exist := db.templates[key];
      var t1 := db.templates[key := PrimaryItem(req, exist.copycount)];
      var ws := Writes(req, exist.tags, exist.copycount);
      assert k !in WriteKeys(ws) by {
        forall w | w in ws ensures w.key != k {
          var i :| 0 <= i < |ws| && ws[i] == w;
        }
      }
      ApplyWritesOutside(t1, ws, failed, k);
    }
  }

  /**
   * The failure paths: a missing row or a failed primary put changes
   * nothing; any failure leaves the tag table as it was (no recount runs)
   * and every other template's rows untouched, with nothing rolled back.
   */
  lemma StoreFailures(db: Db, req: Request, failed: set<Key>)
    ensures Key(req.id, req.templateid) !in db.templates ==> Store(db, req, failed) == (db, false)
    ensures Key(req.id, req.templateid) in failed ==> Store(db, req, failed) == (db, false)
    ensures !Store(db, req, failed).1 ==> Store(db, req, failed).0.tags == db.tags
    ensures Key(req.id, req.templateid) in db.templates && db.templates[Key(req.id, req.templateid)].Association?
            ==> !Store(db, req, failed).1
    ensures forall k: Key :: k.templateid != req.templateid ==>
      (k in Store(db, req, failed).0.templates <==> k in db.templates)
      && (k in db.templates ==> Store(db, req, failed).0.templates[k] == db.templates[k])
  {
    forall k: Key | k.templateid != req.templateid
      ensures (k in Store(db, req, failed).0.templates <==> k in db.templates)
        && (k in db.templates ==> Store(db, req, failed).0.templates[k] == db.templates[k])
    {
      StoreOutside(db, req, failed, k);
    }
  }

  lemma PutsAndDeletesDistinct(req: Request, exist: TagsRecord, copycount: nat)
    requires DistinctIds(req.tags) && DistinctIds(DeletedTags(exist, req.tags))
    ensures DistinctKeys(AssociationPuts(req.tags, req.templateid, req.createdDate, copycount))
    ensures DistinctKeys(AssociationDeletes(DeletedTags(exist, req.tags), req.templateid))
  {
    var tid := req.templateid;
    var puts := AssociationPuts(req.tags, tid, req.createdDate, copycount);
    var dels := AssociationDeletes(DeletedTags(exist, req.tags), tid);
    KeysDistinct(puts, req.tags, tid);
    KeysDistinct(dels, DeletedTags(exist, req.tags), tid);
  }

  /**
   * The template table after all the writes of an update succeed: the new
   * associations are added, the dropped ones removed, nothing else changed.
   */
  lemma AllWritesApplied(t1: Table, req: Request, exist: TagsRecord, copycount: nat)
    requires DistinctIds(req.tags) && DistinctIds(DeletedTags(exist, req.tags))
    ensures var t2 := ApplyAll(t1, Writes(req, exist, copycount));
      var d := DeletedTags(exist, req.tags);
      && t2.Keys == (t1.Keys + AssocKeys(req.tags, req.templateid)) - AssocKeys(d, req.templateid)
      && (forall e :: e in req.tags ==>
            && AssocKey(e.tagid, req.templateid) in t2
            && t2[AssocKey(e.tagid, req.templateid)] == Association(Some(req.createdDate), copycount))
      && (forall k :: k in t2 && k !in AssocKeys(req.tags, req.templateid) ==> k in t1 && t2[k] == t1[k])
  {
    var tid := req.templateid;
    var d := DeletedTags(exist, req.tags);
    var puts := AssociationPuts(req.tags, tid, req.createdDate, copycount);
    var dels := AssociationDeletes(d, tid);
    var tp := ApplyAll(t1, puts);
    var t2 := ApplyAll(t1, Writes(req, exist, copycount));
    assert t2 == tp - AssocKeys(d, tid) by {
      ApplyAllConcat(t1, puts, dels);
      PutsAndDeletesDistinct(req, exist, copycount);
      ApplyAllDistinctDeletes(tp, dels);
      KeysFollowRecord(dels, d, tid);
    }
    assert tp.Keys == t1.Keys + AssocKeys(req.tags, tid)
        && forall k :: k in t1 && k !in AssocKeys(req.tags, tid) ==> tp[k] == t1[k] by {
      PutsAndDeletesDistinct(req, exist, copycount);
      ApplyAllDistinctPuts(t1, puts);
      KeysFollowRecord(puts, req.tags, tid);
    }
    forall e | e in req.tags
      ensures AssocKey(e.tagid, tid) !in AssocKeys(d, tid)
      && tp[AssocKey(e.tagid, tid)] == Association(Some(req.createdDate), copycount)
    {
      var i :| 0 <= i < |req.tags| && req.tags[i] == e;
      assert puts[i] == Put(AssocKey(e.tagid, tid), Association(Some(req.createdDate), copycount));
      PutsAndDeletesDistinct(req, exist, copycount);
      ApplyAllDistinctPuts(t1, puts);
      if AssocKey(e.tagid, tid) in AssocKeys(d, tid) {
        var f :| f in d && AssocKey(f.tagid, tid) == AssocKey(e.tagid, tid);
        AssocKeyInjective(f.tagid, e.tagid, tid, tid);
      }
    }
  }

  /**
   * A successful update of a template that satisfied the association
   * invariant keeps it, now for the new record: the template's rows are
   * exactly its primary and one association per new tag id, each with the
   * stored copy count and the new date; the rewritten primary keeps the
   * stored copy count.
   */
  lemma StoreKeepsAssociations(db: Db, req: Request, failed: set<Key>)
    requires req.id == "template#" + req.templateid
    requires AssociationsMatch(db.templates, req.templateid)
    requires DistinctIds(req.tags)
    requires Store(db, req, failed).1
    ensures var t' := Store(db, req, failed).0.templates;
      && AssociationsMatch(t', req.templateid)
      && t'[PrimaryKey(req.templateid)]
         == PrimaryItem(req, db.templates[PrimaryKey(req.templateid)].copycount)
  {
    var tid := req.templateid;
    var pk := PrimaryKey(tid);
    var exist := db.templates[pk];
    var cc := exist.copycount;
    var t1 := db.templates[pk := PrimaryItem(req, cc)];
    var d := DeletedTags(exist.tags, req.tags);
    var t2 := Store(db, req, failed).0.templates;
    StoreSucceeded(db, req, failed);
    DeletedTagsDistinct(exist.tags, req.tags);
    AllWritesApplied(t1, req, exist.tags, cc);
    assert pk !in AssocKeys(req.tags, tid) && pk !in AssocKeys(d, tid) by {
      forall e | e in req.tags + d ensures pk != AssocKey(e.tagid, tid) {
        PrimaryIsNotAssociation(tid, e.tagid, tid);
      }
    }
    RowsAfterUpdate(db.templates, t2, tid, exist.tags, req.tags);
  }

  /** A successful update applied every write, after the primary put over a stored template row. */
  lemma StoreSucceeded(db: Db, req: Request, failed: set<Key>)
    requires Store(db, req, failed).1
    ensures var key := Key(req.id, req.templateid);
      && key in db.templates && db.templates[key].Template?
      && var exist := db.templates[key];
         Store(db, req, failed).0.templates
         == ApplyAll(db.templates[key := PrimaryItem(req, exist.copycount)], Writes(req, exist.tags, exist.copycount))
  {
    var key := Key(req.id, req.templateid);
    var exist := db.templates[key];
    var t1 := db.templates[key := PrimaryItem(req, exist.copycount)];
    var ws := Writes(req, exist.tags, exist.copycount);
    ApplyWritesStops(t1, ws, failed);
    assert ws[..|ws|] == ws;
  }

  /** Rows of `tid` after the writes: the primary and exactly the new associations. */
  lemma RowsAfterUpdate(t0: Table, t2: Table, tid: string, exist: TagsRecord, updated: TagsRecord)
    requires RowsOf(t0, tid) == {PrimaryKey(tid)} + AssocKeys(exist, tid)
    requires PrimaryKey(tid) in t0
    requires t2.Keys == (t0.Keys + AssocKeys(updated, tid)) - AssocKeys(DeletedTags(exist, updated), tid)
    requires PrimaryKey(tid) !in AssocKeys(DeletedTags(exist, updated), tid)
    ensures RowsOf(t2, tid) == {PrimaryKey(tid)} + AssocKeys(updated, tid)
  {
    var d := DeletedTags(exist, updated);
    forall k | k in AssocKeys(updated, tid) ensures k !in AssocKeys(d, tid) {
      var u :| u in updated && k == AssocKey(u.tagid, tid);
      if k in AssocKeys(d, tid) {
        var f :| f in d && k == AssocKey(f.tagid, tid);
        AssocKeyInjective(f.tagid, u.tagid, tid, tid);
      }
    }
    forall k | k in RowsOf(t2, tid) ensures k in {PrimaryKey(tid)} + AssocKeys(updated, tid) {
      if k in t0 && k != PrimaryKey(tid) {
        assert k in RowsOf(t0, tid);
        KeptAssociation(exist, updated, tid, k);
      }
    }
  }

  /** A stored association that is not dropped belongs to an entry of the new record. */
  lemma KeptAssociation(exist: TagsRecord, updated: TagsRecord, tid: string, k: Key)
    requires k in AssocKeys(exist, tid) && k !in AssocKeys(DeletedTags(exist, updated), tid)
    ensures k in AssocKeys(updated, tid)
  {
    var e :| e in exist && k == AssocKey(e.tagid, tid);
    assert e !in DeletedTags(exist, updated);
    var u :| u in updated && u.tagid == e.tagid;
  }

  /**
   * After a successful update the tag table is reconciled: every dropped
   * tag and every new tag has a row whose counter is its live association
   * count, or no row when that count is 0 and the name is not protected;
   * a new tag's entry wins over a dropped entry of the same name. Tag names
   * on neither list keep their rows.
   */
  lemma StoreReconciles(db: Db, req: Request, failed: set<Key>)
    requires Key(req.id, req.templateid) in db.templates
    requires db.templates[Key(req.id, req.templateid)].Template?
    requires DistinctNames(req.tags) && DistinctIds(db.templates[Key(req.id, req.templateid)].tags)
    requires DistinctNames(db.templates[Key(req.id, req.templateid)].tags)
    requires Store(db, req, failed).1
    ensures var (db', _) := Store(db, req, failed);
      var d := DeletedTags(db.templates[Key(req.id, req.templateid)].tags, req.tags);
      && (forall e :: e in req.tags ==> Settled(db'.tags, db'.templates, e))
      && (forall e :: e in d && e.tagname !in Names(req.tags) ==> Settled(db'.tags, db'.templates, e))
      && (forall n :: n !in Names(d) && n !in Names(req.tags) ==>
            (n in db'.tags <==> n in db.tags) && (n in db.tags ==> db'.tags[n] == db.tags[n]))
  {
    var exist := db.templates[Key(req.id, req.templateid)];
    DeletedTagsDistinct(exist.tags, req.tags);
    var (db', _) := Store(db, req, failed);
    ReconcileTwice(db.tags, db'.templates, DeletedTags(exist.tags, req.tags), req.tags);
  }

  /**
   * The handler: the request carries the body's key, the new timestamp as
   * `createdDate` and `userId#timestamp` as `gsi_sk`; it answers 200 exactly
   * when `updateTemplate` returns true. Resolution never changes the counter
   * of a known tag (the recount may, afterwards), and a private update
   * stores an empty record.
   */
  lemma HandleOutcome(db: Db, body: Body, timestamp: string, userId: string, usermailaddress: string,
                      uuids: seq<string>, failed: set<Key>)
    requires |uuids| == |body.tags|
    ensures var (db', resp) := Handle(db, body, timestamp, userId, usermailaddress, uuids, failed);
      var (tags1, rec) := ResolveTags(db.tags, body, uuids);
      var req := BuildRequest(body, timestamp, userId, usermailaddress, rec);
      && (!body.isPublic ==> rec == [] && tags1 == db.tags)
      && (forall x :: x in db.tags ==> x in tags1 && tags1[x] == db.tags[x])
      && (forall x :: x in tags1 && x !in db.tags ==> x in body.tags && tags1[x].count == 1)
      && req.id == body.id && req.templateid == body.templateid
      && req.createdDate == timestamp && req.gsiPk == "userid" && req.gsiSk == userId + "#" + timestamp
      && (resp.statusCode == 200 <==> Store(Db(db.templates, tags1), req, failed).1)
      && (resp.statusCode == 200 ==> resp.stored == Some(req))
      && (resp.statusCode != 200 ==> resp.statusCode == 500 && resp.stored == None)
  {
    if body.isPublic {
      forall x | x in db.tags || x in body.tags
        ensures var t1 := ResolveTags(db.tags, body, uuids).0;
          x in t1 && (x in db.tags ==> t1[x] == db.tags[x]) && (x !in db.tags ==> t1[x].count == 1)
      {
        ResolveCounts(db.tags, [], body.tags, uuids, KeepExisting, x);
      }
      forall x | x in ResolveTags(db.tags, body, uuids).0 && x !in db.tags ensures x in body.tags {
        ResolveCounts(db.tags, [], body.tags, uuids, KeepExisting, x);
      }
    }
  }

  /**
   * A private update of a consistent template removes every association it
   * had, and reconciles every tag it had.
   */
  lemma PrivateUpdateClears(db: Db, body: Body, timestamp: string, userId: string,
                            usermailaddress: string, uuids: seq<string>, failed: set<Key>)
    requires |uuids| == |body.tags| && !body.isPublic
    requires body.id == "template#" + body.templateid
    requires AssociationsMatch(db.templates, body.templateid)
    requires DistinctNames(db.templates[PrimaryKey(body.templateid)].tags)
    requires Handle(db, body, timestamp, userId, usermailaddress, uuids, failed).1.statusCode == 200
    ensures var (db', _) := Handle(db, body, timestamp, userId, usermailaddress, uuids, failed);
      && RowsOf(db'.templates, body.templateid) == {PrimaryKey(body.templateid)}
      && forall e :: e in db.templates[PrimaryKey(body.templateid)].tags ==> Settled(db'.tags, db'.templates, e)
  {
    var req := BuildRequest(body, timestamp, userId, usermailaddress, []);
    var exist := db.templates[PrimaryKey(body.templateid)].tags;
    StoreKeepsAssociations(Db(db.templates, db.tags), req, failed);
    StoreReconciles(Db(db.templates, db.tags), req, failed);
    assert DeletedTags(exist, []) == exist by {
      assert forall e :: e in DeletedTags(exist, []) <==> e in exist;
      DeletedAll(exist);
    }
  }

  /** With no new ids, every stored entry is dropped. */
  lemma {:induction false} DeletedAll(exist: TagsRecord)
    ensures DeletedTags(exist, []) == exist
    decreases |exist|
  {
    if exist != [] {
      DeletedAll(exist[1..]);
      assert exist == [exist[0]] + exist[1..];
    }
  }
}
