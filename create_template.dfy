/**
 * `POST /template`: resolve the tag names to ids (public templates only),
 * put the primary row, then one association row per tag id.
 */
module CreateTemplate {
  import opened Wrappers
  import opened Records
  import opened StoreWrites
  import opened TagResolution

  /** The parsed JSON body. */
  datatype Body = Body(title: string, prompt: string, isPublic: bool, tags: seq<string>)

  /** The `Request` record the handler assembles, stores and echoes back. */
  datatype Request = Request(
    id: string, templateid: string, title: string, prompt: string, isPublic: bool,
    usermailaddress: string, tags: TagsRecord, createdDate: string, copycount: nat,
    gsiPk: string, gsiSk: string)

  /** Status code and, on 200, the stored request. */
  datatype Response = Response(statusCode: int, stored: Option<Request>)

  function PrimaryItem(req: Request): Item {
    Template(req.title, req.prompt, req.isPublic, req.usermailaddress, req.tags,
             req.createdDate, req.copycount, req.gsiPk, req.gsiSk)
  }

  /** The checked writes of `createTemplate`, in order. */
  function Writes(req: Request): seq<Write> {
    [Put(Key(req.id, req.templateid), PrimaryItem(req))]
    + AssociationPuts(req.tags, req.templateid, req.createdDate, req.copycount)
  }

  /** `createTemplate(requestBody)`: the new template table and the returned flag. */
  function Store(table: Table, req: Request, failed: set<Key>): (Table, bool) {
    ApplyWrites(table, Writes(req), failed)
  }

  /** Tag resolution of the handler: only a public template gets tags. */
  function ResolveTags(tags: TagTable, body: Body, uuids: seq<string>): (TagTable, TagsRecord)
    requires |uuids| == |body.tags|
  {
    if body.isPublic then Resolve(tags, [], body.tags, uuids, IncrementExisting) else (tags, [])
  }

  function BuildRequest(body: Body, uuid: string, timestamp: string, userId: string,
                        usermailaddress: string, tags: TagsRecord): Request
  {
    Request("template#" + uuid, uuid, body.title, body.prompt, body.isPublic, usermailaddress,
            tags, timestamp, 0, "userid", userId + "#" + timestamp)
  }

  /**
   * The handler. `uuid` is the template's fresh uuid, `uuids[i]` the uuid a new
   * tag `body.tags[i]` would get, `timestamp` the creation time in milliseconds,
   * `failed` the template-table keys whose write does not return 200.
   */
  function Handle(db: Db, body: Body, uuid: string, timestamp: string, userId: string,
                  usermailaddress: string, uuids: seq<string>, failed: set<Key>): (Db, Response)
    requires |uuids| == |body.tags|
  {
    var (tags', rec) := ResolveTags(db.tags, body, uuids);
    var req := BuildRequest(body, uuid, timestamp, userId, usermailaddress, rec);
    var (table', ok) := Store(db.templates, req, failed);
    (Db(table', tags'), if ok then Response(200, Some(req)) else Response(500, None))
  }

  /** No row of the table belongs to `tid`: a freshly generated uuid. */
  predicate Unused(table: Table, tid: string) {
    forall k :: k in table ==> k.templateid != tid
  }

  /** A request as the handler builds it: primary key layout and a record with distinct ids. */
  predicate WellFormed(req: Request) {
    req.id == "template#" + req.templateid && DistinctIds(req.tags)
  }

  /**
   * `after` is `before` plus the primary row of `req` and the association
   * rows of the first `m` tag entries, and nothing else changed.
   */
  predicate Written(before: Table, after: Table, req: Request, m: nat)
    requires m <= |req.tags|
  {
    && after.Keys == before.Keys + {PrimaryKey(req.templateid)} + AssocKeys(req.tags[..m], req.templateid)
    && (forall k :: k in before ==> after[k] == before[k])
    && after[PrimaryKey(req.templateid)] == PrimaryItem(req)
    && forall e :: e in req.tags[..m] ==>
         after[AssocKey(e.tagid, req.templateid)] == Association(Some(req.createdDate), req.copycount)
  }

  /** The first `m + 1` writes of a well-formed request hit distinct keys. */
  lemma PrefixKeys(req: Request, m: nat)
    requires WellFormed(req) && m <= |req.tags|
    ensures var ws := Writes(req)[..m + 1];
      && DistinctKeys(ws)
      && WriteKeys(ws) == {PrimaryKey(req.templateid)} + AssocKeys(req.tags[..m], req.templateid)
      && (forall i :: 0 <= i < |ws| ==> ws[i].Put?)
  {
    var tid := req.templateid;
    var ap := AssociationPuts(req.tags, tid, req.createdDate, req.copycount);
    var ws := Writes(req)[..m + 1];
    assert ws == [Put(PrimaryKey(tid), PrimaryItem(req))] + ap[..m];
    assert ws[1..] == ap[..m];
    KeysFollowRecord(ap[..m], req.tags[..m], tid);
    WriteKeysTail(ws);
    forall i, j | 0 <= i < j < |ws| ensures ws[i].key != ws[j].key {
      if i == 0 {
        PrimaryIsNotAssociation(tid, req.tags[j - 1].tagid, tid);
      } else if ws[i].key == ws[j].key {
        AssocKeyInjective(req.tags[i - 1].tagid, req.tags[j - 1].tagid, tid, tid);
      }
    }
  }

  lemma PrefixWritten(table: Table, req: Request, m: nat)
    requires WellFormed(req) && Unused(table, req.templateid) && m <= |req.tags|
    ensures Written(table, ApplyAll(table, Writes(req)[..m + 1]), req, m)
  {
    var tid := req.templateid;
    var ws := Writes(req)[..m + 1];
    var r := ApplyAll(table, ws);
    assert r.Keys == table.Keys + {PrimaryKey(tid)} + AssocKeys(req.tags[..m], tid) by {
      PrefixKeys(req, m);
      ApplyAllDistinctPuts(table, ws);
    }
    assert forall k :: k in table ==> r[k] == table[k] by {
      PrefixKeys(req, m);
      ApplyAllDistinctPuts(table, ws);
      forall k | k in table ensures k !in WriteKeys(ws) {
        assert k.templateid != tid;
      }
    }
    assert r[PrimaryKey(tid)] == PrimaryItem(req) by {
      PrefixKeys(req, m);
      ApplyAllDistinctPuts(table, ws);
      assert ws[0] == Put(PrimaryKey(tid), PrimaryItem(req));
    }
    forall e | e in req.tags[..m]
      ensures r[AssocKey(e.tagid, tid)] == Association(Some(req.createdDate), req.copycount)
    {
      var i :| 0 <= i < m && req.tags[..m][i] == e;
      PrefixKeys(req, m);
      ApplyAllDistinctPuts(table, ws);
      assert ws[i + 1] == Put(AssocKey(e.tagid, tid), Association(Some(req.createdDate), req.copycount));
    }
  }

  /**
   * `createTemplate` on a fresh uuid: a failed primary put changes nothing;
   * otherwise the primary row and the associations of the first `m` entries
   * are written, `m` stops at the first failed association put, and the
   * result is `true` exactly when every association was written.
   */
  lemma {:induction false} StoreOutcome(table: Table, req: Request, failed: set<Key>) returns (m: nat)
    requires WellFormed(req) && Unused(table, req.templateid)
    ensures PrimaryKey(req.templateid) in failed ==> Store(table, req, failed) == (table, false)
    ensures PrimaryKey(req.templateid) !in failed ==>
      && m <= |req.tags|
      && Written(table, Store(table, req, failed).0, req, m)
      && (Store(table, req, failed).1 <==> m == |req.tags|)
      && (m < |req.tags| ==> AssocKey(req.tags[m].tagid, req.templateid) in failed)
  {
    var ws := Writes(req);
    ApplyWritesStops(table, ws, failed);
    var j := FirstFailure(ws, failed);
    if PrimaryKey(req.templateid) in failed {
      assert j == 0;
      m := 0;
    } else {
      m := j - 1;
      PrefixWritten(table, req, m);
      if m < |req.tags| {
        assert ws[m + 1].key == AssocKey(req.tags[m].tagid, req.templateid);
      }
    }
  }

  /**
   * A successful `createTemplate` leaves the new template with exactly one
   * association per tag id, all carrying its date and copy count, and keeps
   * every other row.
   */
  lemma StoreEstablishesAssociations(table: Table, req: Request, failed: set<Key>)
    requires WellFormed(req) && Unused(table, req.templateid)
    requires Store(table, req, failed).1
    ensures AssociationsMatch(Store(table, req, failed).0, req.templateid)
    ensures forall k :: k in table ==> k in Store(table, req, failed).0 && Store(table, req, failed).0[k] == table[k]
  {
    var m := StoreOutcome(table, req, failed);
    var tid := req.templateid;
    var r := Store(table, req, failed).0;
    assert PrimaryKey(tid) !in failed;
    assert req.tags[..m] == req.tags;
    assert RowsOf(r, tid) == {PrimaryKey(tid)} + AssocKeys(req.tags, tid) by {
      forall k | k in r && k.templateid == tid ensures k in {PrimaryKey(tid)} + AssocKeys(req.tags, tid) {
        assert k !in table;
      }
    }
  }

  /** A private template is stored with no tags and leaves the tag table alone. */
  lemma HandlePrivate(db: Db, body: Body, uuid: string, timestamp: string, userId: string,
                      usermailaddress: string, uuids: seq<string>, failed: set<Key>)
    requires |uuids| == |body.tags| && !body.isPublic
    ensures Handle(db, body, uuid, timestamp, userId, usermailaddress, uuids, failed).0.tags == db.tags
    ensures Store(db.templates, BuildRequest(body, uuid, timestamp, userId, usermailaddress, []), failed).0
            == Handle(db, body, uuid, timestamp, userId, usermailaddress, uuids, failed).0.templates
  {
  }

  /**
   * The handler on a fresh uuid and fresh tag uuids: it answers 200 exactly
   * when every template write succeeded; then the stored request has the
   * documented fields, its tag record names each input tag once under a
   * distinct id that the tag table maps it to, and the template's rows
   * match that record. The tag table is updated whether or not the template
   * writes succeed.
   */
  lemma HandleOutcome(db: Db, body: Body, uuid: string, timestamp: string, userId: string,
                      usermailaddress: string, uuids: seq<string>, failed: set<Key>)
    requires |uuids| == |body.tags|
    requires Unused(db.templates, uuid) && UniqueIds(db.tags) && FreshUuids(db.tags, uuids)
    ensures var (db', resp) := Handle(db, body, uuid, timestamp, userId, usermailaddress, uuids, failed);
      var req := BuildRequest(body, uuid, timestamp, userId, usermailaddress, ResolveTags(db.tags, body, uuids).1);
      && db'.tags == ResolveTags(db.tags, body, uuids).0
      && db'.templates == Store(db.templates, req, failed).0
      && (resp.statusCode == 200 || resp.statusCode == 500)
      && (resp.statusCode == 200 <==> Store(db.templates, req, failed).1)
      && (resp.statusCode == 200 ==> resp.stored == Some(req))
      && (resp.statusCode == 500 ==> resp.stored == None)
      && (resp.statusCode == 200 ==>
           && req.id == "template#" + uuid && req.templateid == uuid
           && req.copycount == 0 && req.createdDate == timestamp
           && req.gsiPk == "userid" && req.gsiSk == userId + "#" + timestamp
           && DistinctIds(req.tags)
           && Names(req.tags) == (if body.isPublic then set x | x in body.tags else {})
           && Covered(db'.tags, req.tags)
           && AssociationsMatch(db'.templates, uuid))
  {
    var (tags', rec) := ResolveTags(db.tags, body, uuids);
    if body.isPublic {
      ResolvedRecordNames(db.tags, body.tags, uuids, IncrementExisting);
    }
    var req := BuildRequest(body, uuid, timestamp, userId, usermailaddress, rec);
    if Store(db.templates, req, failed).1 {
      StoreEstablishesAssociations(db.templates, req, failed);
    }
  }

  /**
   * Creation counts a repeated tag name twice but writes one association:
   * after a public template with tags `[n, n]` for a new name `n`, the
   * counter of `n` is 2 and the record holds `n` once.
   */
  lemma RepeatedNameDrift(db: Db, body: Body, uuid: string, timestamp: string, userId: string,
                          usermailaddress: string, uuids: seq<string>, failed: set<Key>, n: string)
    requires body.isPublic && body.tags == [n, n] && |uuids| == 2 && n !in db.tags
    ensures var (db', _) := Handle(db, body, uuid, timestamp, userId, usermailaddress, uuids, failed);
      && n in db'.tags && db'.tags[n].count == 2
      && ResolveTags(db.tags, body, uuids).1 == [TagRef(uuids[0], n)]
  {
    var s1 := ResolveStep(db.tags, [], n, uuids[0], IncrementExisting);
    assert s1 == (db.tags[n := NewTag(uuids[0])], [TagRef(uuids[0], n)]);
    var s2 := ResolveStep(s1.0, s1.1, n, uuids[1], IncrementExisting);
    assert s2.0[n].count == 2;
    assert s2.1 == [TagRef(uuids[0], n)];
    assert Resolve(s2.0, s2.1, [], [], IncrementExisting) == s2;
    assert Resolve(s1.0, s1.1, [n], uuids[1..], IncrementExisting) == s2;
  }
}
