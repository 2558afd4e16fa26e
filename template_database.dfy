/**
 * The two tables as mutable state, and the handlers' inner functions as the
 * step-by-step store mutations they are: every loop issues one store call per
 * iteration and returns `false` at the first checked write that fails. Each
 * method is proved to leave exactly the state, and return exactly the value,
 * of the corresponding function of the handler's module, where the
 * properties of the operation are proved.
 */
module TemplateDatabase {
  import opened Wrappers
  import opened Records
  import opened StoreWrites
  import opened TagResolution
  import opened Reconciliation
  import Creation = CreateTemplate
  import Updating = UpdateTemplate
  import Deletion = DeleteTemplate
  import Copying = CopyCount
  import Seeding = SeedTags

  /** The checked sequence, read from position `i` on, after one more step. */
  lemma ApplyWritesStep(t: Table, ws: seq<Write>, i: nat, failed: set<Key>)
    requires i < |ws|
    ensures ApplyWrites(t, ws[i..], failed)
         == if ws[i].key in failed then (t, false) else ApplyWrites(Apply(t, ws[i]), ws[i + 1..], failed)
  {
    assert ws[i..][0] == ws[i];
    assert ws[i..][1..] == ws[i + 1..];
  }

  lemma ApplyWritesDone(t: Table, ws: seq<Write>, failed: set<Key>)
    ensures ApplyWrites(t, ws[|ws|..], failed) == (t, true)
  {
    assert ws[|ws|..] == [];
  }

  /** A checked sequence in two parts: the second part runs only when the first succeeded. */
  lemma {:induction false} ApplyWritesConcat(t: Table, a: seq<Write>, b: seq<Write>, failed: set<Key>)
    ensures ApplyWrites(t, a + b, failed)
         == var (t1, ok) := ApplyWrites(t, a, failed); if ok then ApplyWrites(t1, b, failed) else (t1, false)
    decreases |a|
  {
    if a == [] {
      assert a + b == b;
    } else {
      assert (a + b)[0] == a[0] && (a + b)[1..] == a[1..] + b;
      if a[0].key !in failed {
        ApplyWritesConcat(Apply(t, a[0]), a[1..], b, failed);
      }
    }
  }

  class Database {
    /** The template table. */
    var templates: Table
    /** The tag table. */
    var tags: TagTable

    function Snapshot(): Db
      reads this
    {
      Db(templates, tags)
    }

    constructor (db: Db)
      ensures Snapshot() == db
    {
      templates := db.templates;
      tags := db.tags;
    }

    /** One template-table write whose status code is checked: a failing write changes nothing. */
    method Send(w: Write, failed: set<Key>) returns (ok: bool)
      modifies this
      ensures ok <==> w.key !in failed
      ensures templates == if ok then Apply(old(templates), w) else old(templates)
      ensures tags == old(tags)
    {
      ok := w.key !in failed;
      if ok {
        match w
        case Put(k, item) => templates := templates[k := item];
        case SetCopycount(k, c) =>
          templates := templates[k := if k in templates then WithCopycount(templates[k], c) else Association(None, c)];
        case Delete(k) => templates := templates - {k};
      }
    }

    /**
     * `getAndGenerateTagIds`: look each name up, bump a known counter when
     * the policy says so or put a new tag row, and record `tagId: name`.
     */
    method GetAndGenerateTagIds(names: seq<string>, uuids: seq<string>, policy: CounterPolicy)
      returns (rec: TagsRecord)
      requires |uuids| == |names|
      modifies this
      ensures (tags, rec) == Resolve(old(tags), [], names, uuids, policy)
      ensures templates == old(templates)
    {
      rec := [];
      var i := 0;
      while i < |names|
        invariant 0 <= i <= |names|
        invariant templates == old(templates)
        invariant Resolve(old(tags), [], names, uuids, policy) == Resolve(tags, rec, names[i..], uuids[i..], policy)
      {
        assert names[i..][0] == names[i] && names[i..][1..] == names[i + 1..];
        assert uuids[i..][0] == uuids[i] && uuids[i..][1..] == uuids[i + 1..];
        var name := names[i];
        var tagId: string;
        if name in tags {
          var item := tags[name];
          tagId := IdOf(item);
          if policy == IncrementExisting {
            tags := tags[name := item.(count := item.count + 1)];
          }
        } else {
          tagId := uuids[i];
          tags := tags[name := NewTag(tagId)];
        }
        rec := Assign(rec, tagId, name);
        i := i + 1;
      }
      assert names[i..] == [];
    }

    /** createTemplate.ts `createTemplate`: the primary put, then one association put per tag entry. */
    method CreateTemplate(req: Creation.Request, failed: set<Key>) returns (ok: bool)
      modifies this
      ensures (templates, ok) == Creation.Store(old(templates), req, failed)
      ensures tags == old(tags)
    {
      ghost var ws := Creation.Writes(req);
      ApplyWritesStep(templates, ws, 0, failed);
      assert ws[0..] == ws;
      ok := Send(Put(Key(req.id, req.templateid), Creation.PrimaryItem(req)), failed);
      if !ok {
        return;
      }
      var i := 0;
      while i < |req.tags|
        invariant 0 <= i <= |req.tags|
        invariant tags == old(tags)
        invariant Creation.Store(old(templates), req, failed) == ApplyWrites(templates, ws[i + 1..], failed)
      {
        var tagId := req.tags[i].tagid;
        ApplyWritesStep(templates, ws, i + 1, failed);
        ok := Send(Put(AssocKey(tagId, req.templateid), Association(Some(req.createdDate), req.copycount)), failed);
        if !ok {
          return;
        }
        i := i + 1;
      }
      ApplyWritesDone(templates, ws, failed);
    }

    /**
     * updateTemplate.ts `updateTemplateCount`, and the second loop of
     * deleteTemplate.ts: recount each entry's association partition and set
     * or delete its tag row.
     */
    method UpdateTemplateCount(taglist: TagsRecord)
      modifies this
      ensures tags == Reconcile(old(tags), templates, taglist)
      ensures templates == old(templates)
    {
      var i := 0;
      while i < |taglist|
        invariant 0 <= i <= |taglist|
        invariant templates == old(templates)
        invariant Reconcile(old(tags), templates, taglist) == Reconcile(tags, templates, taglist[i..])
      {
        assert taglist[i..][0] == taglist[i] && taglist[i..][1..] == taglist[i + 1..];
        var e := taglist[i];
        var newCount := |Partition(templates, e.tagid)|;
        if Protected(e.tagname) {
          tags := SetCount(tags, e.tagname, newCount);
        } else if newCount == 0 {
          tags := tags - {e.tagname};
        } else {
          tags := SetCount(tags, e.tagname, newCount);
        }
        i := i + 1;
      }
      assert taglist[i..] == [];
    }

    /** The association put loop of updateTemplate.ts: one put per tag entry. */
    method PutAssociations(rec: TagsRecord, templateid: string, createdDate: string, copycount: nat,
                           failed: set<Key>)
      returns (ok: bool)
      modifies this
      ensures (templates, ok) == ApplyWrites(old(templates), AssociationPuts(rec, templateid, createdDate, copycount), failed)
      ensures tags == old(tags)
    {
      ghost var ws := AssociationPuts(rec, templateid, createdDate, copycount);
      assert ws[0..] == ws;
      var i := 0;
      while i < |rec|
        invariant 0 <= i <= |rec|
        invariant tags == old(tags)
        invariant ApplyWrites(old(templates), ws, failed) == ApplyWrites(templates, ws[i..], failed)
      {
        var tagId := rec[i].tagid;
        ApplyWritesStep(templates, ws, i, failed);
        ok := Send(Put(AssocKey(tagId, templateid), Association(Some(createdDate), copycount)), failed);
        if !ok {
          return;
        }
        i := i + 1;
      }
      ApplyWritesDone(templates, ws, failed);
      ok := true;
    }

    /** The association delete loop of updateTemplate.ts and deleteTemplate.ts: one delete per tag entry. */
    method DeleteAssociations(rec: TagsRecord, templateid: string, failed: set<Key>) returns (ok: bool)
      modifies this
      ensures (templates, ok) == ApplyWrites(old(templates), AssociationDeletes(rec, templateid), failed)
      ensures tags == old(tags)
    {
      ghost var ws := AssociationDeletes(rec, templateid);
      assert ws[0..] == ws;
      var i := 0;
      while i < |rec|
        invariant 0 <= i <= |rec|
        invariant tags == old(tags)
        invariant ApplyWrites(old(templates), ws, failed) == ApplyWrites(templates, ws[i..], failed)
      {
        var tagId := rec[i].tagid;
        ApplyWritesStep(templates, ws, i, failed);
        ok := Send(Delete(AssocKey(tagId, templateid)), failed);
        if !ok {
          return;
        }
        i := i + 1;
      }
      ApplyWritesDone(templates, ws, failed);
      ok := true;
    }

    /**
     * updateTemplate.ts `updateTemplate`: read the stored row, put the new
     * primary with the stored copy count, rewrite the associations, then
     * recount the dropped tags and the new tags.
     */
    method UpdateTemplate(req: Updating.Request, failed: set<Key>) returns (ok: bool)
      modifies this
      ensures (Snapshot(), ok) == Updating.Store(old(Snapshot()), req, failed)
    {
      var key := Key(req.id, req.templateid);
      if key !in templates {
        return false;
      }
      var exist := templates[key];
      ok := Send(Put(key, Updating.PrimaryItem(req, exist.copycount)), failed);
      if !ok {
        return;
      }
      if exist.Association? {
        return false;
      }
      var deletedTags := Updating.DeletedTags(exist.tags, req.tags);
      ApplyWritesConcat(templates, AssociationPuts(req.tags, req.templateid, req.createdDate, exist.copycount),
                        AssociationDeletes(deletedTags, req.templateid), failed);
      ok := PutAssociations(req.tags, req.templateid, req.createdDate, exist.copycount, failed);
      if !ok {
        return;
      }
      ok := DeleteAssociations(deletedTags, req.templateid, failed);
      if !ok {
        return;
      }
      UpdateTemplateCount(deletedTags);
      UpdateTemplateCount(req.tags);
    }

    /**
     * deleteTemplate.ts `deleteTemplate`: read the primary, delete it, delete
     * one association per stored tag entry, then recount the stored tags.
     */
    method DeleteTemplate(templateid: string, failed: set<Key>) returns (ok: bool)
      modifies this
      ensures (Snapshot(), ok) == Deletion.Store(old(Snapshot()), templateid, failed)
    {
      var key := PrimaryKey(templateid);
      if key !in templates {
        return false;
      }
      var exist := templates[key];
      ok := Send(Delete(key), failed);
      if !ok {
        return;
      }
      if exist.Association? {
        return false;
      }
      var deletedTags := exist.tags;
      ok := DeleteAssociations(deletedTags, templateid, failed);
      if !ok {
        return;
      }
      UpdateTemplateCount(deletedTags);
      ok := true;
    }

    /**
     * incrementalTemplateCopycount.ts `updateTemplate`: read the primary, add
     * one to its copy count, then write the new count into the association
     * row of every stored tag entry.
     */
    method IncrementCopycount(templateid: string, failed: set<Key>) returns (ok: bool)
      modifies this
      ensures (templates, ok) == Copying.Store(old(templates), templateid, failed)
      ensures tags == old(tags)
    {
      var key := PrimaryKey(templateid);
      if key !in templates {
        return false;
      }
      var existTemplate := templates[key];
      var copycount := existTemplate.copycount + 1;
      ok := Send(SetCopycount(key, copycount), failed);
      if !ok {
        return;
      }
      if existTemplate.Association? {
        return false;
      }
      var existTags := existTemplate.tags;
      ghost var ws := CopycountWrites(existTags, templateid, copycount);
      ghost var t1 := templates;
      assert ws[0..] == ws;
      var i := 0;
      while i < |existTags|
        invariant 0 <= i <= |existTags|
        invariant tags == old(tags)
        invariant ApplyWrites(t1, ws, failed) == ApplyWrites(templates, ws[i..], failed)
      {
        var tagId := existTags[i].tagid;
        ApplyWritesStep(templates, ws, i, failed);
        ok := Send(SetCopycount(AssocKey(tagId, templateid), copycount), failed);
        if !ok {
          return;
        }
        i := i + 1;
      }
      ApplyWritesDone(templates, ws, failed);
      ok := true;
    }

    /** initTemplateDatabase.ts: put the three seed rows, in order. */
    method InitTagTable()
      modifies this
      ensures tags == Seeding.Seed(old(tags))
      ensures templates == old(templates)
    {
      var items := Seeding.Items;
      var i := 0;
      while i < |items|
        invariant 0 <= i <= |items|
        invariant templates == old(templates)
        invariant Seeding.Seed(old(tags)) == Seeding.PutAll(tags, items[i..])
      {
        assert items[i..][0] == items[i] && items[i..][1..] == items[i + 1..];
        tags := tags[items[i].tagname := items[i].item];
        i := i + 1;
      }
      assert items[i..] == [];
    }

    /** The create handler: tags are resolved for a public template only. */
    method HandleCreate(body: Creation.Body, uuid: string, timestamp: string, userId: string,
                        usermailaddress: string, uuids: seq<string>, failed: set<Key>)
      returns (response: Creation.Response)
      requires |uuids| == |body.tags|
      modifies this
      ensures (Snapshot(), response)
           == Creation.Handle(old(Snapshot()), body, uuid, timestamp, userId, usermailaddress, uuids, failed)
    {
      var rec: TagsRecord := [];
      if body.isPublic {
        rec := GetAndGenerateTagIds(body.tags, uuids, IncrementExisting);
      }
      var req := Creation.BuildRequest(body, uuid, timestamp, userId, usermailaddress, rec);
      var ok := CreateTemplate(req, failed);
      response := if ok then Creation.Response(200, Some(req)) else Creation.Response(500, None);
    }

    /** The update handler. */
    method HandleUpdate(body: Updating.Body, timestamp: string, userId: string, usermailaddress: string,
                        uuids: seq<string>, failed: set<Key>)
      returns (response: Updating.Response)
      requires |uuids| == |body.tags|
      modifies this
      ensures (Snapshot(), response)
           == Updating.Handle(old(Snapshot()), body, timestamp, userId, usermailaddress, uuids, failed)
    {
      var rec: TagsRecord := [];
      if body.isPublic {
        rec := GetAndGenerateTagIds(body.tags, uuids, KeepExisting);
      }
      var req := Updating.BuildRequest(body, timestamp, userId, usermailaddress, rec);
      var ok := UpdateTemplate(req, failed);
      response := if ok then Updating.Response(200, Some(req)) else Updating.Response(500, None);
    }

    /** The delete handler: a missing path parameter becomes the empty id. */
    method HandleDelete(templateId: Option<string>, failed: set<Key>) returns (statusCode: int)
      modifies this
      ensures (Snapshot(), statusCode) == Deletion.Handle(old(Snapshot()), templateId, failed)
    {
      var ok := DeleteTemplate(templateId.GetOr(""), failed);
      statusCode := if ok then 200 else 500;
    }

    /** The copy-count handler. */
    method HandleIncrement(templateId: Option<string>, failed: set<Key>) returns (statusCode: int)
      modifies this
      ensures (Snapshot(), statusCode) == Copying.Handle(old(Snapshot()), templateId, failed)
    {
      var ok := IncrementCopycount(templateId.GetOr(""), failed);
      statusCode := if ok then 200 else 500;
    }
  }
}
